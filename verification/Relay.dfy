/** build_relay_stages: anonymous relay stages between YOU and every client with a known hop count,
    placed so that a chain does not run over itself or over anybody placed before it. */
module Relay {
  import opened Common
  import opened Sorting
  import opened Grid
  import opened Slots
  import opened Stretch
  import opened Connector

  /** A client and how many hops away it is. */
  datatype Hop = Hop(client: NodeId, count: int)

  /** The index-th anonymous stage of a client's chain, counted outward from YOU. */
  datatype Stage = Stage(client: NodeId, index: nat)

  /** The grid, where a grid cell is drawn, and which pixels a connector between two cells uses. */
  datatype Canvas = Canvas(rows: int, columns: int, pixel: Cell -> Cell, segment: (Cell, Cell) -> set<Cell>)

  predicate ClientFirst(g: Hop, h: Hop) {
    g.client <= h.client
  }

  function ScaledPixel(rowScale: int, columnScale: int, c: Cell): Cell {
    Cell(c.b * columnScale, c.a * rowScale)
  }

  /** The pixels the connector between two grid cells draws over. */
  function SegmentPixels(rowScale: int, columnScale: int, c: Cell, d: Cell): set<Cell> {
    Cells(Route(ScaledPixel(rowScale, columnScale, c), ScaledPixel(rowScale, columnScale, d)))
  }

  /** The canvas of a grid whose rows and columns take that many pixels each. */
  function Scaled(rows: int, columns: int, rowScale: int, columnScale: int): Canvas {
    Canvas(rows, columns,
           c => ScaledPixel(rowScale, columnScale, c),
           (c, d) => SegmentPixels(rowScale, columnScale, c, d))
  }

  ghost predicate DrawnAt(v: Canvas, rowScale: int, columnScale: int) {
    v == Scaled(v.rows, v.columns, rowScale, columnScale)
  }

  method SegmentPixelCells(v: Canvas, rowScale: int, columnScale: int, c: Cell, d: Cell) returns (cells: set<Cell>)
    requires DrawnAt(v, rowScale, columnScale)
    ensures cells == v.segment(c, d)
  {
    var marks := RouteConnector(ScaledPixel(rowScale, columnScale, c), ScaledPixel(rowScale, columnScale, d));
    cells := Cells(marks);
  }

  function Pixels(v: Canvas, cells: set<Cell>): set<Cell> {
    set c | c in cells :: v.pixel(c)
  }

  // ----- One stage

  /** What a new stage must respect: the stage before it, the pixels already used, and for a last
      stage the client it leads on to. */
  datatype Limits = Limits(occupied: set<Cell>, previous: Cell, blocked: set<Cell>, next: Option<Cell>)

  predicate Satisfies(v: Canvas, l: Limits, c: Cell) {
    && c !in l.occupied
    && v.segment(l.previous, c) !! l.blocked
    && (l.next.Some? ==> v.segment(c, l.next.value) !! l.blocked)
  }

  function Suitable(v: Canvas, l: Limits): Cell -> bool {
    c => InGrid(c, v.rows, v.columns) && Satisfies(v, l, c)
  }

  /** _reserve_relay_stage_cell: the cell itself, else the nearest satisfying one, else any free one. */
  ghost function StageCell(v: Canvas, l: Limits, c: Cell): Cell {
    if Satisfies(v, l, c) then c
    else match Scan(c, v.rows + v.columns, Suitable(v, l))
      case Some(d) => d
      case None => BoundedCell(c, l.occupied, v.rows, v.columns)
  }

  method ReserveRelayStageCell(v: Canvas, l: Limits, c: Cell) returns (r: Cell)
    ensures r == StageCell(v, l, c)
  {
    if Satisfies(v, l, c) {
      return c;
    }
    var found := ScanRings(c, v.rows + v.columns, Suitable(v, l));
    if found.Some? {
      return found.value;
    }
    r := ReserveBoundedCell(c, l.occupied, v.rows, v.columns);
  }

  ghost predicate AnySuitable(v: Canvas, l: Limits) {
    exists d :: Suitable(v, l)(d)
  }

  lemma StageCellBeats(v: Canvas, l: Limits, c: Cell, d: Cell)
    requires InGrid(c, v.rows, v.columns) && Suitable(v, l)(d)
    ensures Suitable(v, l)(StageCell(v, l, c)) && Distance(c, StageCell(v, l, c)) <= Distance(c, d)
  {
    GridSpan(c, d, v.rows, v.columns);
    if !Satisfies(v, l, c) {
      ScanBeats(c, v.rows + v.columns, Suitable(v, l), d);
    } else {
      assert Suitable(v, l)(c);
    }
  }

  /** While any grid cell satisfies the limits, the stage takes a nearest such cell. */
  lemma StageCellIsNearest(v: Canvas, l: Limits, c: Cell)
    requires InGrid(c, v.rows, v.columns) && AnySuitable(v, l)
    ensures Suitable(v, l)(StageCell(v, l, c))
    ensures forall d :: Suitable(v, l)(d) ==> Distance(c, StageCell(v, l, c)) <= Distance(c, d)
  {
    var e :| Suitable(v, l)(e);
    StageCellBeats(v, l, c, e);
    forall d | Suitable(v, l)(d) ensures Distance(c, StageCell(v, l, c)) <= Distance(c, d) {
      StageCellBeats(v, l, c, d);
    }
  }

  /** The any-free-cell search is reached only when no grid cell satisfies the limits. */
  lemma FallbackOnlyWhenNothingSuits(v: Canvas, l: Limits, c: Cell)
    requires InGrid(c, v.rows, v.columns)
    ensures AnySuitable(v, l) <==> Suitable(v, l)(StageCell(v, l, c))
    ensures !AnySuitable(v, l) ==> StageCell(v, l, c) == BoundedCell(c, l.occupied, v.rows, v.columns)
  {
    if AnySuitable(v, l) {
      StageCellIsNearest(v, l, c);
    } else {
      assert !Suitable(v, l)(c);
      ScanIsAcceptable(c, v.rows + v.columns, Suitable(v, l));
    }
  }

  lemma StageCellInGrid(v: Canvas, l: Limits, c: Cell)
    requires InGrid(c, v.rows, v.columns)
    ensures InGrid(StageCell(v, l, c), v.rows, v.columns)
    ensures SomeFree(l.occupied, v.rows, v.columns) ==> StageCell(v, l, c) !in l.occupied
  {
    FallbackOnlyWhenNothingSuits(v, l, c);
    BoundedCellInGrid(c, l.occupied, v.rows, v.columns);
  }

  // ----- One chain

  /** One client's chain: where it starts, where it leads, how many stages it has, the cell each stage
      would like, and which cell it gets instead when its limits say so. */
  datatype Link = Link(you: Cell, client: Cell, count: nat, ideal: nat -> Cell, ghost pick: (Limits, Cell) -> Cell)

  function Between(from: int, to: int, step: nat, count: nat): int {
    RoundHalfEven(from * (count + 1) + (to - from) * step, count + 1)
  }

  /** The straight-line position of a stage, on the grid. */
  function OnTheLine(rows: int, columns: int, you: Cell, client: Cell, count: nat, step: nat): Cell {
    Cell(Clamp(Between(you.a, client.a, step, count), 1, rows),
         Clamp(Between(you.b, client.b, step, count), 1, columns))
  }

  ghost function Picker(v: Canvas): (Limits, Cell) -> Cell {
    (l: Limits, c: Cell) => StageCell(v, l, c)
  }

  function LinkTo(v: Canvas, you: Cell, client: Cell, count: nat): Link {
    Link(you, client, count, (step: nat) => OnTheLine(v.rows, v.columns, you, client, count, step), Picker(v))
  }

  ghost predicate PicksInGrid(v: Canvas, k: Link) {
    forall l: Limits, step: nat :: InGrid(k.pick(l, k.ideal(step)), v.rows, v.columns)
  }

  /** A pick is free as long as fewer than `room` cells are taken. */
  ghost predicate PicksFree(k: Link, room: nat) {
    forall l: Limits, step: nat :: |l.occupied| < room ==> k.pick(l, k.ideal(step)) !in l.occupied
  }

  ghost predicate PicksSuitable(v: Canvas, k: Link) {
    forall l: Limits, step: nat :: AnySuitable(v, l) ==> Satisfies(v, l, k.pick(l, k.ideal(step)))
  }

  /** The stages of a client on the board are placed by _reserve_relay_stage_cell, on the grid. */
  lemma LinkPicks(v: Canvas, you: Cell, client: Cell, count: nat, room: nat)
    requires v.rows >= 1 && v.columns >= 1 && room == v.rows * v.columns
    ensures var k := LinkTo(v, you, client, count);
      PicksInGrid(v, k) && PicksFree(k, room) && PicksSuitable(v, k)
  {
    var k := LinkTo(v, you, client, count);
    forall l: Limits, step: nat ensures InGrid(k.pick(l, k.ideal(step)), v.rows, v.columns) {
      StageCellInGrid(v, l, k.ideal(step));
    }
    forall l: Limits, step: nat | |l.occupied| < room ensures k.pick(l, k.ideal(step)) !in l.occupied {
      StageCellIsFree(v, l, k.ideal(step));
    }
    forall l: Limits, step: nat | AnySuitable(v, l) ensures Satisfies(v, l, k.pick(l, k.ideal(step))) {
      StageCellIsNearest(v, l, k.ideal(step));
    }
  }

  lemma StageCellIsFree(v: Canvas, l: Limits, c: Cell)
    requires v.rows >= 1 && v.columns >= 1 && InGrid(c, v.rows, v.columns) && |l.occupied| < v.rows * v.columns
    ensures StageCell(v, l, c) !in l.occupied
  {
    StageCellInGrid(v, l, c);
    GridHasFreeCell(l.occupied, v.rows, v.columns);
  }

  /** The i-th point of a chain: YOU, then the stages. */
  function Point(k: Link, cells: seq<Cell>, i: nat): Cell
    requires i <= |cells|
  {
    if i == 0 then k.you else cells[i - 1]
  }

  function Occupied(start: set<Cell>, cells: seq<Cell>): set<Cell> {
    start + set c | c in cells
  }

  /** The pixels in use once the first i stages are placed. */
  function Blocked(v: Canvas, k: Link, start: set<Cell>, cells: seq<Cell>, i: nat): set<Cell>
    requires i <= |cells|
  {
    if i == 0 then Pixels(v, start)
    else Blocked(v, k, start, cells, i - 1) + {v.pixel(cells[i - 1])} + v.segment(Point(k, cells, i - 1), cells[i - 1])
  }

  /** What stage i + 1 must respect. */
  function LimitsAt(v: Canvas, k: Link, start: set<Cell>, cells: seq<Cell>, i: nat): Limits
    requires i <= |cells|
  {
    Limits(Occupied(start, cells[..i]), Point(k, cells, i), Blocked(v, k, start, cells, i),
           if i + 1 == k.count then Some(k.client) else None)
  }

  /** `cells` are the stages of the chain on a grid where `start` is taken: each one is where
      _reserve_relay_stage_cell puts it, given those before it. */
  ghost predicate IsChain(v: Canvas, k: Link, start: set<Cell>, cells: seq<Cell>) {
    |cells| == k.count && ChainSoFar(v, k, start, cells, |cells|)
  }

  ghost predicate ChainSoFar(v: Canvas, k: Link, start: set<Cell>, cells: seq<Cell>, n: nat)
    requires n <= |cells|
  {
    n > 0 ==>
      && ChainSoFar(v, k, start, cells, n - 1)
      && cells[n - 1] == k.pick(LimitsAt(v, k, start, cells, n - 1), k.ideal(n))
  }

  lemma {:induction false} BlockedPrefix(v: Canvas, k: Link, start: set<Cell>, cells: seq<Cell>, more: seq<Cell>,
                                         i: nat)
    requires i <= |cells|
    ensures Blocked(v, k, start, cells + more, i) == Blocked(v, k, start, cells, i)
  {
    if i > 0 {
      BlockedPrefix(v, k, start, cells, more, i - 1);
    }
  }

  lemma LimitsPrefix(v: Canvas, k: Link, start: set<Cell>, cells: seq<Cell>, more: seq<Cell>, i: nat)
    requires i <= |cells|
    ensures LimitsAt(v, k, start, cells + more, i) == LimitsAt(v, k, start, cells, i)
  {
    BlockedPrefix(v, k, start, cells, more, i);
    assert (cells + more)[..i] == cells[..i];
  }

  lemma {:induction false} ChainPrefix(v: Canvas, k: Link, start: set<Cell>, cells: seq<Cell>, more: seq<Cell>, n: nat)
    requires n <= |cells| && ChainSoFar(v, k, start, cells, n)
    ensures ChainSoFar(v, k, start, cells + more, n)
  {
    if n > 0 {
      ChainPrefix(v, k, start, cells, more, n - 1);
      LimitsPrefix(v, k, start, cells, more, n - 1);
    }
  }

  lemma ChainGrows(v: Canvas, k: Link, start: set<Cell>, cells: seq<Cell>, c: Cell)
    requires ChainSoFar(v, k, start, cells, |cells|)
    requires c == k.pick(LimitsAt(v, k, start, cells, |cells|), k.ideal(|cells| + 1))
    ensures ChainSoFar(v, k, start, cells + [c], |cells| + 1)
  {
    ChainPrefix(v, k, start, cells, [c], |cells|);
    LimitsPrefix(v, k, start, cells, [c], |cells|);
  }

  lemma OccupiedGrows(start: set<Cell>, cells: seq<Cell>, c: Cell)
    ensures Occupied(start, cells + [c]) == Occupied(start, cells) + {c}
  {
  }

  /** What is blocked once a stage is placed; the last one also blocks its onward segment. */
  method BlockStage(v: Canvas, rowScale: int, columnScale: int, previous: Cell, candidate: Cell, next: Option<Cell>,
                    blocked: set<Cell>) returns (after: set<Cell>)
    requires DrawnAt(v, rowScale, columnScale)
    ensures after == blocked + {v.pixel(candidate)} + v.segment(previous, candidate) +
                     (if next.Some? then v.segment(candidate, next.value) else {})
  {
    var segment := SegmentPixelCells(v, rowScale, columnScale, previous, candidate);
    after := blocked + {v.pixel(candidate)} + segment;
    if next.Some? {
      var onward := SegmentPixelCells(v, rowScale, columnScale, candidate, next.value);
      after := after + onward;
    }
  }

  /** One turn of the loop: the stage's cell, and what is blocked afterwards. */
  method PlaceStage(v: Canvas, rowScale: int, columnScale: int, k: Link, ghost start: set<Cell>, ghost cells: seq<Cell>,
                    occupied: set<Cell>, previous: Cell, blocked: set<Cell>, step: nat)
    returns (candidate: Cell, after: set<Cell>)
    requires DrawnAt(v, rowScale, columnScale) && step == |cells| + 1 && k.pick == Picker(v)
    requires occupied == Occupied(start, cells) && previous == Point(k, cells, |cells|)
    requires blocked == Blocked(v, k, start, cells, |cells|)
    ensures candidate == k.pick(LimitsAt(v, k, start, cells, |cells|), k.ideal(step))
    ensures step != k.count ==> after == Blocked(v, k, start, cells + [candidate], step)
  {
    var next := if step == k.count then Some(k.client) else None;
    LimitsNow(v, k, start, cells);
    candidate := ReserveRelayStageCell(v, Limits(occupied, previous, blocked, next), k.ideal(step));
    BlockedNext(v, k, start, cells, candidate);
    after := BlockStage(v, rowScale, columnScale, previous, candidate, next, blocked);
  }

  lemma LimitsNow(v: Canvas, k: Link, start: set<Cell>, cells: seq<Cell>)
    ensures LimitsAt(v, k, start, cells, |cells|) ==
            Limits(Occupied(start, cells), Point(k, cells, |cells|), Blocked(v, k, start, cells, |cells|),
                   if |cells| + 1 == k.count then Some(k.client) else None)
  {
    assert cells[..|cells|] == cells;
  }

  lemma BlockedNext(v: Canvas, k: Link, start: set<Cell>, cells: seq<Cell>, c: Cell)
    ensures Blocked(v, k, start, cells + [c], |cells| + 1) ==
            Blocked(v, k, start, cells, |cells|) + {v.pixel(c)} + v.segment(Point(k, cells, |cells|), c)
  {
    BlockedPrefix(v, k, start, cells, [c], |cells|);
  }

  method PlaceChain(v: Canvas, rowScale: int, columnScale: int, k: Link, start: set<Cell>)
    returns (cells: seq<Cell>, occupied: set<Cell>)
    requires DrawnAt(v, rowScale, columnScale) && k.pick == Picker(v)
    ensures IsChain(v, k, start, cells) && occupied == Occupied(start, cells)
  {
    cells, occupied := [], start;
    var blocked := Pixels(v, start);
    var previous := k.you;
    for step := 1 to k.count + 1
      invariant |cells| == step - 1 && occupied == Occupied(start, cells) && previous == Point(k, cells, step - 1)
      invariant step <= k.count ==> blocked == Blocked(v, k, start, cells, step - 1)
      invariant ChainSoFar(v, k, start, cells, step - 1)
    {
      var candidate;
      candidate, blocked := PlaceStage(v, rowScale, columnScale, k, start, cells, occupied, previous, blocked, step);
      ChainGrows(v, k, start, cells, candidate);
      OccupiedGrows(start, cells, candidate);
      cells := cells + [candidate];
      occupied := occupied + {candidate};
      previous := candidate;
    }
  }

  // ----- A chain that never falls back does not run over itself

  /** Every earlier node, stage and segment is blocked. */
  lemma {:induction false} BlockedSoFar(v: Canvas, k: Link, start: set<Cell>, cells: seq<Cell>, n: nat, i: nat)
    requires i <= n <= |cells|
    ensures Pixels(v, start) <= Blocked(v, k, start, cells, n)
    ensures 1 <= i ==> v.pixel(cells[i - 1]) in Blocked(v, k, start, cells, n)
    ensures 1 <= i ==> v.segment(Point(k, cells, i - 1), cells[i - 1]) <= Blocked(v, k, start, cells, n)
  {
    if n > 0 {
      BlockedSoFar(v, k, start, cells, n - 1, if i < n then i else 0);
    }
  }

  /** Every stage satisfies its limits; by FallbackOnlyWhenNothingSuits that is so exactly when no
      stage had to fall back to an arbitrary free cell. */
  ghost predicate NeverFallsBack(v: Canvas, k: Link, start: set<Cell>, cells: seq<Cell>) {
    cells == [] ||
    (var n := |cells| - 1;
     NeverFallsBack(v, k, start, cells[..n]) && Satisfies(v, LimitsAt(v, k, start, cells[..n], n), cells[n]))
  }

  lemma {:induction false} NeverFallsBackAt(v: Canvas, k: Link, start: set<Cell>, cells: seq<Cell>, i: nat)
    requires i < |cells| && NeverFallsBack(v, k, start, cells)
    ensures Satisfies(v, LimitsAt(v, k, start, cells, i), cells[i])
  {
    var n := |cells| - 1;
    assert cells == cells[..n] + [cells[n]];
    LimitsPrefix(v, k, start, cells[..n], [cells[n]], i);
    if i < n {
      NeverFallsBackAt(v, k, start, cells[..n], i);
    }
  }

  /** The chain as it is drawn neither runs over itself nor over anybody placed before it: entering
      segments are pairwise disjoint and miss every earlier node and stage, and the segment onward to
      the client misses all of these but the one entering the last stage. */
  ghost predicate RunsClear(v: Canvas, k: Link, start: set<Cell>, cells: seq<Cell>) {
    && (forall j :: 0 <= j < |cells| ==> EntryIsClear(v, k, start, cells, j))
    && (|cells| >= 1 ==> SegmentIsClear(v, k, start, cells, |cells| - 1, v.segment(cells[|cells| - 1], k.client)))
  }

  /** `drawn` misses the real nodes, the first n stages and the segments entering those. */
  ghost predicate SegmentIsClear(v: Canvas, k: Link, start: set<Cell>, cells: seq<Cell>, n: nat, drawn: set<Cell>)
    requires n <= |cells|
  {
    && drawn !! Pixels(v, start)
    && forall i {:trigger cells[i]} :: 0 <= i < n ==>
         v.pixel(cells[i]) !in drawn && v.segment(Point(k, cells, i), cells[i]) !! drawn
  }

  ghost predicate EntryIsClear(v: Canvas, k: Link, start: set<Cell>, cells: seq<Cell>, j: nat)
    requires j < |cells|
  {
    SegmentIsClear(v, k, start, cells, j, v.segment(Point(k, cells, j), cells[j]))
  }

  lemma UnblockedIsClear(v: Canvas, k: Link, start: set<Cell>, cells: seq<Cell>, n: nat, drawn: set<Cell>)
    requires n <= |cells| && drawn !! Blocked(v, k, start, cells, n)
    ensures SegmentIsClear(v, k, start, cells, n, drawn)
  {
    BlockedSoFar(v, k, start, cells, n, 0);
    forall i {:trigger cells[i]} | 0 <= i < n
      ensures v.pixel(cells[i]) !in drawn && v.segment(Point(k, cells, i), cells[i]) !! drawn
    {
      BlockedSoFar(v, k, start, cells, n, i + 1);
    }
  }

  lemma ChainRunsClear(v: Canvas, k: Link, start: set<Cell>, cells: seq<Cell>)
    requires |cells| == k.count && NeverFallsBack(v, k, start, cells)
    ensures RunsClear(v, k, start, cells)
  {
    forall j | 0 <= j < |cells| ensures EntryIsClear(v, k, start, cells, j) {
      NeverFallsBackAt(v, k, start, cells, j);
      UnblockedIsClear(v, k, start, cells, j, v.segment(Point(k, cells, j), cells[j]));
    }
    if |cells| >= 1 {
      var n := |cells| - 1;
      NeverFallsBackAt(v, k, start, cells, n);
      UnblockedIsClear(v, k, start, cells, n, v.segment(cells[n], k.client));
    }
  }

  // ----- The chain as a function of what is taken when it starts

  ghost function CellsTo(v: Canvas, k: Link, start: set<Cell>, n: nat): (cells: seq<Cell>)
    ensures |cells| == n
    decreases n, start
  {
    if n == 0 then []
    else
      var c := CellsTo(v, k, start, n - 1);
      c + [k.pick(LimitsAt(v, k, start, c, n - 1), k.ideal(n))]
  }

  lemma {:induction false} ChainIsDetermined(v: Canvas, k: Link, start: set<Cell>, cells: seq<Cell>)
    requires ChainSoFar(v, k, start, cells, |cells|)
    ensures cells == CellsTo(v, k, start, |cells|)
  {
    if cells != [] {
      var n := |cells| - 1;
      var front := cells[..n];
      assert cells == front + [cells[n]];
      LimitsPrefix(v, k, start, front, [cells[n]], n);
      ChainShortens(v, k, start, front, [cells[n]], n);
      ChainIsDetermined(v, k, start, front);
    }
  }

  lemma {:induction false} ChainShortens(v: Canvas, k: Link, start: set<Cell>, cells: seq<Cell>, more: seq<Cell>,
                                         n: nat)
    requires n <= |cells| && ChainSoFar(v, k, start, cells + more, n)
    ensures ChainSoFar(v, k, start, cells, n)
  {
    if n > 0 {
      ChainShortens(v, k, start, cells, more, n - 1);
      LimitsPrefix(v, k, start, cells, more, n - 1);
    }
  }

  lemma {:induction false} CellsToIsChain(v: Canvas, k: Link, start: set<Cell>, n: nat)
    ensures ChainSoFar(v, k, start, CellsTo(v, k, start, n), n)
  {
    if n > 0 {
      CellsToIsChain(v, k, start, n - 1);
      var c := CellsTo(v, k, start, n - 1);
      ChainGrows(v, k, start, c, k.pick(LimitsAt(v, k, start, c, n - 1), k.ideal(n)));
    }
  }

  /** None of the first n stages finds the grid without a cell that satisfies its limits. */
  ghost predicate SuitableUpTo(v: Canvas, k: Link, start: set<Cell>, n: nat) {
    n == 0 ||
    (SuitableUpTo(v, k, start, n - 1) && AnySuitable(v, LimitsAt(v, k, start, CellsTo(v, k, start, n - 1), n - 1)))
  }

  lemma {:induction false} SuitableChainNeverFallsBack(v: Canvas, k: Link, start: set<Cell>, n: nat)
    requires n <= k.count && PicksSuitable(v, k) && SuitableUpTo(v, k, start, n)
    ensures NeverFallsBack(v, k, start, CellsTo(v, k, start, n))
  {
    if n > 0 {
      SuitableChainNeverFallsBack(v, k, start, n - 1);
      StageAdded(v, k, start, CellsTo(v, k, start, n - 1), CellsTo(v, k, start, n)[n - 1]);
    }
  }

  lemma StageAdded(v: Canvas, k: Link, start: set<Cell>, cells: seq<Cell>, c: Cell)
    requires NeverFallsBack(v, k, start, cells) && Satisfies(v, LimitsAt(v, k, start, cells, |cells|), c)
    ensures NeverFallsBack(v, k, start, cells + [c])
  {
    assert (cells + [c])[..|cells|] == cells;
  }

  lemma {:induction false} OccupiedSize(start: set<Cell>, cells: seq<Cell>)
    ensures |Occupied(start, cells)| <= |start| + |cells|
  {
    if cells == [] {
      assert Occupied(start, cells) == start;
    } else {
      var n := |cells| - 1;
      assert cells == cells[..n] + [cells[n]];
      OccupiedSize(start, cells[..n]);
      OccupiedGrows(start, cells[..n], cells[n]);
    }
  }

  /** Stages on cells that neither `start` nor another stage holds. */
  ghost predicate Apart(start: set<Cell>, cells: seq<Cell>) {
    && (forall i :: 0 <= i < |cells| ==> cells[i] !in start)
    && (forall i, j :: 0 <= i < j < |cells| ==> cells[i] != cells[j])
  }

  ghost predicate AllInGrid(v: Canvas, cells: seq<Cell>) {
    forall i :: 0 <= i < |cells| ==> InGrid(cells[i], v.rows, v.columns)
  }

  /** Each cell is one that neither `start` nor an earlier cell holds. */
  ghost predicate TakesFreeCells(start: set<Cell>, cells: seq<Cell>) {
    cells == [] ||
    (TakesFreeCells(start, cells[..|cells| - 1]) && cells[|cells| - 1] !in Occupied(start, cells[..|cells| - 1]))
  }

  lemma {:induction false} FreeCellsAreApart(start: set<Cell>, cells: seq<Cell>)
    requires TakesFreeCells(start, cells)
    ensures Apart(start, cells)
  {
    if cells != [] {
      FreeCellsAreApart(start, cells[..|cells| - 1]);
    }
  }

  lemma {:induction false} StagesInGrid(v: Canvas, k: Link, start: set<Cell>, n: nat)
    requires PicksInGrid(v, k)
    ensures AllInGrid(v, CellsTo(v, k, start, n))
  {
    if n > 0 {
      StagesInGrid(v, k, start, n - 1);
    }
  }

  lemma OccupiedAt(v: Canvas, k: Link, start: set<Cell>, cells: seq<Cell>)
    ensures LimitsAt(v, k, start, cells, |cells|).occupied == Occupied(start, cells)
    ensures |Occupied(start, cells)| <= |start| + |cells|
  {
    assert cells[..|cells|] == cells;
    OccupiedSize(start, cells);
  }

  lemma {:induction false} StagesTakeFreeCells(v: Canvas, k: Link, start: set<Cell>, n: nat, room: nat)
    requires PicksFree(k, room) && |start| + n <= room
    ensures TakesFreeCells(start, CellsTo(v, k, start, n))
  {
    if n > 0 {
      StagesTakeFreeCells(v, k, start, n - 1, room);
      OccupiedAt(v, k, start, CellsTo(v, k, start, n - 1));
      assert CellsTo(v, k, start, n)[..n - 1] == CellsTo(v, k, start, n - 1);
    }
  }

  /** Stages take cells nobody holds as long as the grid has a free one. */
  lemma StagesAreApart(v: Canvas, k: Link, start: set<Cell>, n: nat, room: nat)
    requires PicksFree(k, room) && |start| + n <= room
    ensures Apart(start, CellsTo(v, k, start, n))
  {
    StagesTakeFreeCells(v, k, start, n, room);
    FreeCellsAreApart(start, CellsTo(v, k, start, n));
  }

  // ----- All clients

  /** A client gets a chain when its hop count is positive and its place is known. */
  predicate HasChain(placed: map<NodeId, Cell>, h: Hop) {
    h.count > 0 && h.client in placed
  }

  datatype Built = Built(stages: seq<Stage>, positions: map<Stage, Cell>, occupied: set<Cell>)

  function Record(b: Built, client: NodeId, cells: seq<Cell>): Built {
    if cells == [] then b
    else
      var n := |cells| - 1;
      var r := Record(b, client, cells[..n]);
      Built(r.stages + [Stage(client, n + 1)], r.positions[Stage(client, n + 1) := cells[n]], r.occupied + {cells[n]})
  }

  ghost function ChainOf(v: Canvas, placed: map<NodeId, Cell>, you: NodeId, h: Hop, start: set<Cell>): seq<Cell>
    requires you in placed && HasChain(placed, h)
  {
    CellsTo(v, LinkTo(v, placed[you], placed[h.client], h.count), start, h.count)
  }

  ghost function BuildTo(v: Canvas, placed: map<NodeId, Cell>, you: NodeId, hops: seq<Hop>): Built
    requires you in placed
  {
    if hops == [] then Built([], map[], placed.Values)
    else
      var n := |hops| - 1;
      var b := BuildTo(v, placed, you, hops[..n]);
      if HasChain(placed, hops[n]) then Record(b, hops[n].client, ChainOf(v, placed, you, hops[n], b.occupied)) else b
  }

  ghost function Build(v: Canvas, placed: map<NodeId, Cell>, you: NodeId, hops: seq<Hop>): Built {
    if you !in placed then Built([], map[], placed.Values) else BuildTo(v, placed, you, Sort(hops, ClientFirst))
  }

  method BuildRelayStages(rows: int, columns: int, rowScale: int, columnScale: int,
                          placed: map<NodeId, Cell>, you: NodeId, hops: seq<Hop>)
    returns (stages: seq<Stage>, positions: map<Stage, Cell>)
    ensures var b := Build(Scaled(rows, columns, rowScale, columnScale), placed, you, hops);
      stages == b.stages && positions == b.positions
  {
    stages, positions := [], map[];
    if you !in placed {
      return;
    }
    var v := Scaled(rows, columns, rowScale, columnScale);
    var occupied := placed.Values;
    var ordered := Sort(hops, ClientFirst);
    for n := 0 to |ordered|
      invariant Built(stages, positions, occupied) == BuildTo(v, placed, you, ordered[..n])
    {
      assert ordered[..n + 1][..n] == ordered[..n];
      var h := ordered[n];
      if HasChain(placed, h) {
        stages, positions, occupied :=
          AddChain(v, rowScale, columnScale, placed, you, h, Built(stages, positions, occupied));
      }
    }
    assert ordered[..|ordered|] == ordered;
  }

  method AddChain(v: Canvas, rowScale: int, columnScale: int, placed: map<NodeId, Cell>, you: NodeId, h: Hop, b: Built)
    returns (stages: seq<Stage>, positions: map<Stage, Cell>, occupied: set<Cell>)
    requires DrawnAt(v, rowScale, columnScale) && you in placed && HasChain(placed, h)
    ensures Built(stages, positions, occupied) == Record(b, h.client, ChainOf(v, placed, you, h, b.occupied))
  {
    stages, positions, occupied := b.stages, b.positions, b.occupied;
    var k := LinkTo(v, placed[you], placed[h.client], h.count);
    var cells, after := PlaceChain(v, rowScale, columnScale, k, b.occupied);
    ChainIsDetermined(v, k, b.occupied, cells);
    for i := 0 to |cells|
      invariant Built(stages, positions, occupied) == Record(b, h.client, cells[..i])
    {
      assert cells[..i + 1][..i] == cells[..i];
      stages := stages + [Stage(h.client, i + 1)];
      positions := positions[Stage(h.client, i + 1) := cells[i]];
      occupied := occupied + {cells[i]};
    }
    assert cells[..|cells|] == cells;
  }

  // ----- What all of it guarantees

  ghost predicate DistinctClients(hops: seq<Hop>) {
    forall i, j :: 0 <= i < j < |hops| ==> hops[i].client != hops[j].client
  }

  /** Where one stage is after a chain is recorded. */
  lemma {:induction false} RecordAt(b: Built, client: NodeId, cells: seq<Cell>, s: Stage)
    ensures var r := Record(b, client, cells);
      var own := s.client == client && 1 <= s.index <= |cells|;
      (s in r.positions <==> own || s in b.positions) &&
      (own ==> r.positions[s] == cells[s.index - 1]) && (!own && s in b.positions ==> r.positions[s] == b.positions[s])
  {
    if cells != [] {
      RecordAt(b, client, cells[..|cells| - 1], s);
    }
  }

  lemma {:induction false} RecordLists(b: Built, client: NodeId, cells: seq<Cell>)
    ensures var r := Record(b, client, cells);
      r.stages == b.stages + seq(|cells|, i requires 0 <= i => Stage(client, i + 1)) &&
      r.occupied == Occupied(b.occupied, cells)
  {
    if cells == [] {
      assert Occupied(b.occupied, cells) == b.occupied;
    } else {
      var n := |cells| - 1;
      assert cells == cells[..n] + [cells[n]];
      RecordLists(b, client, cells[..n]);
      OccupiedGrows(b.occupied, cells[..n], cells[n]);
    }
  }

  lemma RecordExact(b: Built, client: NodeId, cells: seq<Cell>)
    ensures var r := Record(b, client, cells);
      && r.stages == b.stages + seq(|cells|, i requires 0 <= i => Stage(client, i + 1))
      && r.occupied == Occupied(b.occupied, cells)
      && (forall s :: s in r.positions <==> s in b.positions || (s.client == client && 1 <= s.index <= |cells|))
      && (forall s :: s in r.positions ==>
            r.positions[s] == if s.client == client && 1 <= s.index <= |cells| then cells[s.index - 1]
                              else b.positions[s])
  {
    RecordLists(b, client, cells);
    forall s: Stage ensures var r := Record(b, client, cells);
      var own := s.client == client && 1 <= s.index <= |cells|;
      (s in r.positions <==> own || s in b.positions) &&
      (own ==> r.positions[s] == cells[s.index - 1]) && (!own && s in b.positions ==> r.positions[s] == b.positions[s])
    {
      RecordAt(b, client, cells, s);
    }
  }

  /** The stages a list of hops calls for: 1 to count for every client with a chain, in order. */
  function StagesFor(placed: map<NodeId, Cell>, hops: seq<Hop>): seq<Stage> {
    if hops == [] then []
    else
      var n := |hops| - 1;
      StagesFor(placed, hops[..n]) +
      (if HasChain(placed, hops[n]) then seq(hops[n].count, i requires 0 <= i => Stage(hops[n].client, i + 1)) else [])
  }

  ghost predicate Wanted(placed: map<NodeId, Cell>, hops: seq<Hop>, s: Stage) {
    exists h :: h in hops && h.client == s.client && h.client in placed && 1 <= s.index <= h.count
  }

  ghost predicate StageBefore(s: Stage, t: Stage) {
    s.client < t.client || (s.client == t.client && s.index < t.index)
  }

  ghost predicate InStageOrder(stages: seq<Stage>) {
    forall i, j :: 0 <= i < j < |stages| ==> StageBefore(stages[i], stages[j])
  }

  ghost predicate ByClient(hops: seq<Hop>) {
    forall i, j :: 0 <= i < j < |hops| ==> hops[i].client < hops[j].client
  }

  lemma StagesNext(placed: map<NodeId, Cell>, front: seq<Hop>, h: Hop, stages: seq<Stage>, more: seq<Stage>)
    requires ByClient(front + [h])
    requires InStageOrder(stages) && forall s :: s in stages <==> Wanted(placed, front, s)
    requires |more| == (if h.client in placed then Max(0, h.count) else 0)
    requires forall i :: 0 <= i < |more| ==> more[i] == Stage(h.client, i + 1)
    ensures InStageOrder(stages + more)
    ensures forall s :: s in stages + more <==> Wanted(placed, front + [h], s)
  {
    forall s | Wanted(placed, front, s) ensures s.client < h.client && Wanted(placed, front + [h], s) {
      var g :| g in front && g.client == s.client && g.client in placed && 1 <= s.index <= g.count;
      var i :| 0 <= i < |front| && front[i] == g;
      assert (front + [h])[i] == g && (front + [h])[|front|] == h;
    }
    forall i | 0 <= i < |stages| ensures stages[i].client < h.client {
      assert stages[i] in stages;
    }
    forall s | s in more ensures Wanted(placed, front + [h], s) {
      assert h in front + [h];
    }
    forall s | Wanted(placed, front + [h], s) ensures s in stages + more {
      var g :| g in front + [h] && g.client == s.client && g.client in placed && 1 <= s.index <= g.count;
      if g in front {
        assert Wanted(placed, front, s);
      } else {
        assert more[s.index - 1] == s;
      }
    }
  }

  lemma {:induction false} StagesForExactly(placed: map<NodeId, Cell>, hops: seq<Hop>)
    requires ByClient(hops)
    ensures InStageOrder(StagesFor(placed, hops))
    ensures forall s :: s in StagesFor(placed, hops) <==> Wanted(placed, hops, s)
  {
    if hops != [] {
      var n := |hops| - 1;
      var front, h := hops[..n], hops[n];
      StagesForExactly(placed, front);
      assert hops == front + [h];
      var more := if HasChain(placed, h) then seq(h.count, i requires 0 <= i => Stage(h.client, i + 1)) else [];
      StagesNext(placed, front, h, StagesFor(placed, front), more);
      assert StagesFor(placed, hops) == StagesFor(placed, front) + more;
    }
  }

  /** The cells taken when the n-th client's chain is placed. */
  ghost function TakenBefore(v: Canvas, placed: map<NodeId, Cell>, you: NodeId, hops: seq<Hop>, n: nat): set<Cell>
    requires you in placed && n <= |hops|
  {
    BuildTo(v, placed, you, hops[..n]).occupied
  }

  lemma {:induction false} BuiltStages(v: Canvas, placed: map<NodeId, Cell>, you: NodeId, hops: seq<Hop>)
    requires you in placed && DistinctClients(hops)
    ensures var b := BuildTo(v, placed, you, hops);
      && b.stages == StagesFor(placed, hops)
      && (forall s :: s in b.positions <==> Wanted(placed, hops, s))
  {
    if hops != [] {
      var n := |hops| - 1;
      var h := hops[n];
      assert hops == hops[..n] + [h];
      BuiltStages(v, placed, you, hops[..n]);
      var d := BuildTo(v, placed, you, hops[..n]);
      if HasChain(placed, h) {
        RecordExact(d, h.client, ChainOf(v, placed, you, h, d.occupied));
      }
      forall s ensures Wanted(placed, hops, s) <==>
        Wanted(placed, hops[..n], s) || (HasChain(placed, h) && h.client == s.client && 1 <= s.index <= h.count)
      {
      }
    }
  }

  /** Once recorded, a client's chain keeps its cells. */
  lemma {:induction false} ChainIsKept(v: Canvas, placed: map<NodeId, Cell>, you: NodeId, hops: seq<Hop>, m: nat,
                                       b: Built, s: Stage)
    requires you in placed && m <= |hops| && s in BuildTo(v, placed, you, hops[..m]).positions
    requires b == BuildTo(v, placed, you, hops) && forall k :: m <= k < |hops| ==> hops[k].client != s.client
    ensures s in b.positions && b.positions[s] == BuildTo(v, placed, you, hops[..m]).positions[s]
    decreases |hops|
  {
    if m == |hops| {
      assert hops[..m] == hops;
    } else {
      var last := |hops| - 1;
      var d := BuildTo(v, placed, you, hops[..last]);
      assert hops[..last][..m] == hops[..m];
      ChainIsKept(v, placed, you, hops[..last], m, d, s);
      if HasChain(placed, hops[last]) {
        RecordKeeps(d, hops[last].client, ChainOf(v, placed, you, hops[last], d.occupied), b, s);
      }
    }
  }

  lemma ChainIsRecorded(v: Canvas, placed: map<NodeId, Cell>, you: NodeId, hops: seq<Hop>, n: nat, i: nat, d: Built,
                        cells: seq<Cell>)
    requires you in placed && n < |hops| && HasChain(placed, hops[n]) && 1 <= i <= hops[n].count
    requires d == BuildTo(v, placed, you, hops[..n]) && cells == ChainOf(v, placed, you, hops[n], d.occupied)
    ensures |cells| == hops[n].count
    ensures var b := BuildTo(v, placed, you, hops[..n + 1]); var s := Stage(hops[n].client, i);
      s in b.positions && b.positions[s] == cells[i - 1]
  {
    assert hops[..n + 1][..n] == hops[..n];
    RecordAt(d, hops[n].client, cells, Stage(hops[n].client, i));
  }

  /** A client's stages are the chain grown from what was taken at the client's turn. */
  lemma BuiltChain(v: Canvas, placed: map<NodeId, Cell>, you: NodeId, hops: seq<Hop>, n: nat, i: nat)
    requires you in placed && DistinctClients(hops) && n < |hops| && HasChain(placed, hops[n])
    requires 1 <= i <= hops[n].count
    ensures var b := BuildTo(v, placed, you, hops);
      var cells := ChainOf(v, placed, you, hops[n], TakenBefore(v, placed, you, hops, n));
      Stage(hops[n].client, i) in b.positions && b.positions[Stage(hops[n].client, i)] == cells[i - 1]
  {
    var d := BuildTo(v, placed, you, hops[..n]);
    ChainIsRecorded(v, placed, you, hops, n, i, d, ChainOf(v, placed, you, hops[n], d.occupied));
    ChainIsKept(v, placed, you, hops, n + 1, BuildTo(v, placed, you, hops), Stage(hops[n].client, i));
  }

  lemma RecordKeeps(d: Built, client: NodeId, cells: seq<Cell>, b: Built, s: Stage)
    requires b == Record(d, client, cells) && s in d.positions && s.client != client
    ensures s in b.positions && b.positions[s] == d.positions[s]
  {
    RecordAt(d, client, cells, s);
  }

  lemma {:induction false} BuiltOccupied(v: Canvas, placed: map<NodeId, Cell>, you: NodeId, hops: seq<Hop>)
    requires you in placed
    ensures var b := BuildTo(v, placed, you, hops);
      && placed.Values <= b.occupied
      && |b.occupied| <= |placed.Values| + |StagesFor(placed, hops)|
  {
    if hops != [] {
      var n := |hops| - 1;
      BuiltOccupied(v, placed, you, hops[..n]);
      var d := BuildTo(v, placed, you, hops[..n]);
      if HasChain(placed, hops[n]) {
        var cells := ChainOf(v, placed, you, hops[n], d.occupied);
        RecordExact(d, hops[n].client, cells);
        OccupiedSize(d.occupied, cells);
      }
    }
  }

  /** Positions on grid cells of their own, apart from every real node. */
  ghost predicate Separate(positions: map<Stage, Cell>, taken: set<Cell>) {
    && (forall s :: s in positions ==> positions[s] !in taken)
    && (forall s, t :: s in positions && t in positions && s != t ==> positions[s] != positions[t])
  }

  lemma RecordSeparate(b: Built, client: NodeId, cells: seq<Cell>, taken: set<Cell>)
    requires Separate(b.positions, taken) && Apart(b.occupied, cells) && taken <= b.occupied
    requires forall s :: s in b.positions ==> s.client != client && b.positions[s] in b.occupied
    ensures Separate(Record(b, client, cells).positions, taken)
    ensures forall s :: s in Record(b, client, cells).positions ==>
              Record(b, client, cells).positions[s] in Record(b, client, cells).occupied
  {
    RecordExact(b, client, cells);
    var r := Record(b, client, cells);
    forall s, t | s in r.positions && t in r.positions && s != t ensures r.positions[s] != r.positions[t] {
      assert s.client == client && t.client == client ==> s.index != t.index;
    }
  }

  lemma EarlierClientsDiffer(placed: map<NodeId, Cell>, hops: seq<Hop>, s: Stage)
    requires hops != [] && DistinctClients(hops) && Wanted(placed, hops[..|hops| - 1], s)
    ensures s.client != hops[|hops| - 1].client
  {
  }

  lemma {:induction false} BuiltSeparate(v: Canvas, placed: map<NodeId, Cell>, you: NodeId, hops: seq<Hop>, room: nat)
    requires v.rows >= 1 && v.columns >= 1 && you in placed && DistinctClients(hops)
    requires room == v.rows * v.columns && |placed.Values| + |StagesFor(placed, hops)| <= room
    ensures var b := BuildTo(v, placed, you, hops);
      && Separate(b.positions, placed.Values)
      && forall s :: s in b.positions ==> b.positions[s] in b.occupied
  {
    if hops != [] {
      var n := |hops| - 1;
      var h := hops[n];
      BuiltSeparate(v, placed, you, hops[..n], room);
      if HasChain(placed, h) {
        var d := BuildTo(v, placed, you, hops[..n]);
        var k := LinkTo(v, placed[you], placed[h.client], h.count);
        BuiltOccupied(v, placed, you, hops[..n]);
        LinkPicks(v, placed[you], placed[h.client], h.count, room);
        StagesAreApart(v, k, d.occupied, h.count, room);
        BuiltStages(v, placed, you, hops[..n]);
        forall s | s in d.positions ensures s.client != h.client {
          EarlierClientsDiffer(placed, hops, s);
        }
        RecordSeparate(d, h.client, ChainOf(v, placed, you, h, d.occupied), placed.Values);
      }
    }
  }

  lemma SortedHops(hops: seq<Hop>)
    requires DistinctClients(hops)
    ensures DistinctClients(Sort(hops, ClientFirst)) && multiset(Sort(hops, ClientFirst)) == multiset(hops)
    ensures forall h :: h in Sort(hops, ClientFirst) <==> h in hops
    ensures ByClient(Sort(hops, ClientFirst))
  {
    SortPermutes(hops, ClientFirst);
    SortNoDup(hops, ClientFirst);
    SortSorted(hops, ClientFirst);
    var ordered := Sort(hops, ClientFirst);
    forall i, j | 0 <= i < j < |ordered| ensures ordered[i].client < ordered[j].client {
      assert ordered[i] in hops && ordered[j] in hops && ClientFirst(ordered[i], ordered[j]);
    }
  }

  lemma SameWanted(placed: map<NodeId, Cell>, hops: seq<Hop>, ordered: seq<Hop>)
    requires forall h :: h in ordered <==> h in hops
    ensures forall s :: Wanted(placed, ordered, s) <==> Wanted(placed, hops, s)
  {
  }

  /** Exactly stages 1 to count for every placed client with a positive count, and no other; the order
      of the hop counts does not matter. */
  lemma StagesAreExact(v: Canvas, placed: map<NodeId, Cell>, you: NodeId, hops: seq<Hop>)
    requires DistinctClients(hops)
    ensures var b := Build(v, placed, you, hops);
      && (you !in placed ==> b.stages == [] && b.positions == map[])
      && (you in placed ==>
            && InStageOrder(b.stages) && (forall s :: s in b.stages <==> Wanted(placed, hops, s))
            && forall s :: s in b.positions <==> Wanted(placed, hops, s))
    ensures forall shuffled :: multiset(shuffled) == multiset(hops) ==>
              Build(v, placed, you, shuffled) == Build(v, placed, you, hops)
  {
    SortedHops(hops);
    if you in placed {
      BuiltStages(v, placed, you, Sort(hops, ClientFirst));
      StagesForExactly(placed, Sort(hops, ClientFirst));
      SameWanted(placed, hops, Sort(hops, ClientFirst));
    }
    forall shuffled | multiset(shuffled) == multiset(hops)
      ensures Sort(shuffled, ClientFirst) == Sort(hops, ClientFirst)
    {
      SortForgetsOrder(hops, shuffled, ClientFirst);
    }
  }

  /** While the grid has a cell for everyone, each stage has a grid cell of its own. */
  lemma StagesAreSeparate(v: Canvas, placed: map<NodeId, Cell>, you: NodeId, hops: seq<Hop>)
    requires v.rows >= 1 && v.columns >= 1 && DistinctClients(hops)
    requires |placed.Values| + |StagesFor(placed, Sort(hops, ClientFirst))| <= v.rows * v.columns
    ensures Separate(Build(v, placed, you, hops).positions, placed.Values)
  {
    SortedHops(hops);
    if you in placed {
      BuiltSeparate(v, placed, you, Sort(hops, ClientFirst), v.rows * v.columns);
    }
  }

  /** Each stage lies on a grid cell, where its limits put it given what was taken before the chain;
      and if every stage found a cell that satisfies its limits, the drawn chain runs over neither
      itself nor anybody placed before it. */
  ghost predicate ChainIsSound(v: Canvas, k: Link, start: set<Cell>, cells: seq<Cell>) {
    && AllInGrid(v, cells)
    && IsChain(v, k, start, cells)
    && (SuitableUpTo(v, k, start, k.count) ==> NeverFallsBack(v, k, start, cells) && RunsClear(v, k, start, cells))
  }

  lemma GrownChainIsSound(v: Canvas, k: Link, start: set<Cell>)
    requires PicksInGrid(v, k) && PicksSuitable(v, k)
    ensures ChainIsSound(v, k, start, CellsTo(v, k, start, k.count))
  {
    var cells := CellsTo(v, k, start, k.count);
    StagesInGrid(v, k, start, k.count);
    CellsToIsChain(v, k, start, k.count);
    if SuitableUpTo(v, k, start, k.count) {
      SuitableChainNeverFallsBack(v, k, start, k.count);
      ChainRunsClear(v, k, start, cells);
    }
  }

  function StageCells(positions: map<Stage, Cell>, h: Hop): seq<Cell>
    requires h.count >= 0 && forall i :: 1 <= i <= h.count ==> Stage(h.client, i) in positions
  {
    seq(h.count, i requires 0 <= i < h.count => positions[Stage(h.client, i + 1)])
  }

  lemma LinkedChainIsSound(v: Canvas, you: Cell, client: Cell, count: nat, start: set<Cell>)
    requires v.rows >= 1 && v.columns >= 1
    ensures var k := LinkTo(v, you, client, count);
      ChainIsSound(v, k, start, CellsTo(v, k, start, k.count))
  {
    LinkPicks(v, you, client, count, v.rows * v.columns);
    GrownChainIsSound(v, LinkTo(v, you, client, count), start);
  }

  /** A client's stages, read off the board, are its chain grown at its turn. */
  lemma ClientStages(v: Canvas, placed: map<NodeId, Cell>, you: NodeId, ordered: seq<Hop>, n: nat)
    requires DistinctClients(ordered) && you in placed && n < |ordered| && HasChain(placed, ordered[n])
    ensures forall i ::
        1 <= i <= ordered[n].count ==> Stage(ordered[n].client, i) in BuildTo(v, placed, you, ordered).positions
    ensures StageCells(BuildTo(v, placed, you, ordered).positions, ordered[n]) ==
            ChainOf(v, placed, you, ordered[n], TakenBefore(v, placed, you, ordered, n))
  {
    var h := ordered[n];
    var cells := ChainOf(v, placed, you, h, TakenBefore(v, placed, you, ordered, n));
    var positions := BuildTo(v, placed, you, ordered).positions;
    forall i | 1 <= i <= h.count
      ensures Stage(h.client, i) in positions && positions[Stage(h.client, i)] == cells[i - 1]
    {
      BuiltChain(v, placed, you, ordered, n, i);
    }
    assert StageCells(positions, h) == cells;
  }

  /** The n-th client in ID order gets a sound chain, grown around every real node and every earlier
      client's stages. */
  lemma ChainOfClient(v: Canvas, placed: map<NodeId, Cell>, you: NodeId, ordered: seq<Hop>, n: nat)
    requires v.rows >= 1 && v.columns >= 1 && DistinctClients(ordered) && you in placed
    requires n < |ordered| && HasChain(placed, ordered[n])
    ensures placed.Values <= TakenBefore(v, placed, you, ordered, n)
    ensures forall i ::
        1 <= i <= ordered[n].count ==> Stage(ordered[n].client, i) in BuildTo(v, placed, you, ordered).positions
    ensures ChainIsSound(v, LinkTo(v, placed[you], placed[ordered[n].client], ordered[n].count),
                         TakenBefore(v, placed, you, ordered, n),
                         StageCells(BuildTo(v, placed, you, ordered).positions, ordered[n]))
  {
    var h := ordered[n];
    BuiltOccupied(v, placed, you, ordered[..n]);
    ClientStages(v, placed, you, ordered, n);
    LinkedChainIsSound(v, placed[you], placed[h.client], h.count, TakenBefore(v, placed, you, ordered, n));
  }
}
