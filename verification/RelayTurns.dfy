/** The last turn of a relay chain: the onward segment is not held against the segment entering the last stage.
    Exactly when the two run over each other, and a board on which they do. */
module RelayTurns {
  import opened Common
  import opened Grid
  import opened Slots
  import opened Connector
  import opened Relay
  import opened Sorting

  // ----- The pixels of one segment

  predicate Within(u: int, x: int, w: int) {
    u <= x <= w || w <= x <= u
  }

  /** `x` is on the way from p to q, along p's row first, and is neither end. */
  predicate OnSegment(p: Cell, q: Cell, x: Cell) {
    x != p && x != q &&
    ((x.b == p.b && Within(p.a, x.a, q.a)) || (x.a == q.a && Within(p.b, x.b, q.b)))
  }

  lemma StepIsOnSegment(p: Cell, q: Cell, i: nat)
    requires 1 <= i < Length(p, q)
    ensures OnSegment(p, q, AcrossThenDown(p, q, i))
  {
    if i <= Abs(p.a - q.a) {
      Along(p.a, q.a, i);
    } else {
      Along(p.b, q.b, i - Abs(p.a - q.a));
    }
  }

  lemma Along(u: int, w: int, i: nat)
    requires i <= Abs(u - w)
    ensures Within(u, u + Toward(u, w) * i, w) && Abs(u + Toward(u, w) * i - u) == i
    ensures i < Abs(u - w) ==> u + Toward(u, w) * i != w
    ensures i == Abs(u - w) ==> u + Toward(u, w) * i == w
  {
  }

  /** How far along the way a pixel is. */
  function StepOf(p: Cell, q: Cell, x: Cell): nat {
    if x.b == p.b && Within(p.a, x.a, q.a) then Abs(x.a - p.a) else Abs(p.a - q.a) + Abs(x.b - p.b)
  }

  lemma PixelIsStep(p: Cell, q: Cell, x: Cell)
    requires OnSegment(p, q, x)
    ensures 1 <= StepOf(p, q, x) < Length(p, q) && AcrossThenDown(p, q, StepOf(p, q, x)) == x
  {
    if x.b == p.b && Within(p.a, x.a, q.a) {
      BackTo(p.a, x.a, q.a);
    } else {
      BackTo(p.b, x.b, q.b);
    }
  }

  lemma BackTo(u: int, x: int, w: int)
    requires Within(u, x, w)
    ensures u + Toward(u, w) * Abs(x - u) == x && Abs(x - u) <= Abs(u - w)
  {
  }

  /** A segment's pixels, without walking it. */
  lemma SegmentHas(p: Cell, q: Cell, x: Cell)
    ensures x in Cells(Route(p, q)) <==> OnSegment(p, q, x)
  {
    var route := Route(p, q);
    if x in Cells(route) {
      var m :| m in route && m.at == x;
      var i :| 0 <= i < |route| && route[i] == m;
      StepIsOnSegment(p, q, i + 1);
    }
    if OnSegment(p, q, x) {
      PixelIsStep(p, q, x);
      var i := StepOf(p, q, x) - 1;
      assert route[i].at == x;
      assert route[i] in route;
    }
  }

  // ----- One turn

  predicate Apart2(u: int, w: int) {
    Abs(u - w) >= 2
  }

  predicate SameSide(u: int, w: int, c: int) {
    (u < c && w < c) || (u > c && w > c)
  }

  predicate StrictlyBetween(u: int, x: int, w: int) {
    u < x < w || w < x < u
  }

  /** Coming from P to C and going on to D: back along the row, back along the column, or up a column that the
      way in has already crossed. */
  predicate Retraces(p: Cell, c: Cell, d: Cell) {
    || (p.b == c.b && SameSide(p.a, d.a, c.a) && Apart2(p.a, c.a) && (Apart2(d.a, c.a) || d.b != c.b))
    || (p.b != c.b && d.a == c.a && SameSide(p.b, d.b, c.b) && Apart2(d.b, c.b) && (Apart2(p.b, c.b) || p.a != c.a))
    || (p.b != c.b && StrictlyBetween(p.a, d.a, c.a) && StrictlyBetween(c.b, p.b, d.b))
  }

  /** A pixel the two segments share, when they share one. */
  function SharedPixel(p: Cell, c: Cell, d: Cell): Cell {
    if p.b == c.b then Cell(c.a + (if p.a < c.a then -1 else 1), c.b)
    else if d.a == c.a then Cell(c.a, c.b + (if p.b < c.b then -1 else 1))
    else Cell(d.a, p.b)
  }

  lemma RetraceShares(p: Cell, c: Cell, d: Cell)
    requires Retraces(p, c, d)
    ensures OnSegment(p, c, SharedPixel(p, c, d)) && OnSegment(c, d, SharedPixel(p, c, d))
  {
  }

  lemma SharingRetraces(p: Cell, c: Cell, d: Cell, x: Cell)
    requires p != c && c != d && OnSegment(p, c, x) && OnSegment(c, d, x)
    ensures Retraces(p, c, d)
  {
  }

  /** Two segments that meet at C are disjoint exactly when the turn at C is none of the three retraces. */
  lemma TurnIsClearExactly(p: Cell, c: Cell, d: Cell)
    requires p != c && c != d
    ensures Cells(Route(p, c)) !! Cells(Route(c, d)) <==> !Retraces(p, c, d)
  {
    if Retraces(p, c, d) {
      RetraceShares(p, c, d);
      SegmentHas(p, c, SharedPixel(p, c, d));
      SegmentHas(c, d, SharedPixel(p, c, d));
    } else {
      forall x | x in Cells(Route(p, c)) ensures x !in Cells(Route(c, d)) {
        SegmentHas(p, c, x);
        SegmentHas(c, d, x);
        if OnSegment(c, d, x) {
          SharingRetraces(p, c, d, x);
        }
      }
    }
  }

  // ----- A whole chain

  /** The way into the last stage and the way on to the client. */
  ghost predicate LastTurnIsClear(v: Canvas, k: Link, cells: seq<Cell>)
    requires cells != []
  {
    var n := |cells| - 1;
    v.segment(Point(k, cells, n), cells[n]) !! v.segment(cells[n], k.client)
  }

  predicate LastTurnRetraces(v: Canvas, k: Link, cells: seq<Cell>)
    requires cells != []
  {
    var n := |cells| - 1;
    Retraces(v.pixel(Point(k, cells, n)), v.pixel(cells[n]), v.pixel(k.client))
  }

  /** No two segments of the chain, from YOU to the client, share a pixel, and none crosses anybody placed before it. */
  ghost predicate AllSegmentsClear(v: Canvas, k: Link, start: set<Cell>, cells: seq<Cell>)
    requires cells != []
  {
    RunsClear(v, k, start, cells) && LastTurnIsClear(v, k, cells)
  }

  lemma PixelsDiffer(rowScale: int, columnScale: int, c: Cell, d: Cell)
    requires rowScale >= 1 && columnScale >= 1 && c != d
    ensures ScaledPixel(rowScale, columnScale, c) != ScaledPixel(rowScale, columnScale, d)
  {
    ProductsDiffer(c.a, d.a, rowScale);
    ProductsDiffer(c.b, d.b, columnScale);
  }

  lemma PositiveProduct(d: nat, scale: nat)
    requires d >= 1 && scale >= 1
    ensures d * scale >= 1
  {
  }

  lemma ProductsDiffer(u: int, w: int, scale: int)
    requires scale >= 1
    ensures u != w ==> u * scale != w * scale
  {
    if u < w {
      PositiveProduct(w - u, scale);
      Distributes(w, u, scale);
    } else if u > w {
      PositiveProduct(u - w, scale);
      Distributes(u, w, scale);
    }
  }

  lemma Distributes(u: int, w: int, scale: int)
    ensures (u - w) * scale == u * scale - w * scale
  {
  }

  lemma LastStageIsNew(v: Canvas, k: Link, start: set<Cell>, cells: seq<Cell>)
    requires cells != [] && NeverFallsBack(v, k, start, cells) && k.you in start && k.client in start
    ensures var n := |cells| - 1; cells[n] != Point(k, cells, n) && cells[n] != k.client
  {
    var n := |cells| - 1;
    NeverFallsBackAt(v, k, start, cells, n);
    assert cells[n] !in Occupied(start, cells[..n]);
    if n > 0 {
      assert cells[..n][n - 1] == cells[n - 1];
    }
  }

  lemma LastTurnIsClearExactly(v: Canvas, rowScale: int, columnScale: int, k: Link, cells: seq<Cell>, n: nat)
    requires DrawnAt(v, rowScale, columnScale) && rowScale >= 1 && columnScale >= 1 && |cells| == n + 1
    requires cells[n] != Point(k, cells, n) && cells[n] != k.client
    ensures LastTurnIsClear(v, k, cells) <==> !LastTurnRetraces(v, k, cells)
  {
    PixelsDiffer(rowScale, columnScale, Point(k, cells, n), cells[n]);
    PixelsDiffer(rowScale, columnScale, cells[n], k.client);
    TurnIsClearExactly(v.pixel(Point(k, cells, n)), v.pixel(cells[n]), v.pixel(k.client));
  }

  /** A chain that never falls back is clear of itself from end to end exactly when its last turn is no retrace. */
  lemma WholeChainIsClearExactly(v: Canvas, rowScale: int, columnScale: int, k: Link, start: set<Cell>,
                                 cells: seq<Cell>)
    requires DrawnAt(v, rowScale, columnScale) && rowScale >= 1 && columnScale >= 1
    requires cells != [] && |cells| == k.count && NeverFallsBack(v, k, start, cells)
    requires k.you in start && k.client in start
    ensures AllSegmentsClear(v, k, start, cells) <==> !LastTurnRetraces(v, k, cells)
  {
    LastStageIsNew(v, k, start, cells);
    LastTurnIsClearExactly(v, rowScale, columnScale, k, cells, |cells| - 1);
    ChainRunsClear(v, k, start, cells);
  }

  /** The same for a client's stages on the finished board. */
  lemma ClientChainIsClearExactly(v: Canvas, rowScale: int, columnScale: int, placed: map<NodeId, Cell>, you: NodeId,
                                  ordered: seq<Hop>, n: nat)
    requires DrawnAt(v, rowScale, columnScale) && rowScale >= 1 && columnScale >= 1 && v.rows >= 1 && v.columns >= 1
    requires DistinctClients(ordered) && you in placed && n < |ordered| && HasChain(placed, ordered[n])
    requires SuitableUpTo(v, LinkTo(v, placed[you], placed[ordered[n].client], ordered[n].count),
                          TakenBefore(v, placed, you, ordered, n), ordered[n].count)
    ensures forall i ::
        1 <= i <= ordered[n].count ==> Stage(ordered[n].client, i) in BuildTo(v, placed, you, ordered).positions
    ensures var k := LinkTo(v, placed[you], placed[ordered[n].client], ordered[n].count);
      var cells := StageCells(BuildTo(v, placed, you, ordered).positions, ordered[n]);
      cells != [] &&
      (AllSegmentsClear(v, k, TakenBefore(v, placed, you, ordered, n), cells) <==> !LastTurnRetraces(v, k, cells))
  {
    var h := ordered[n];
    var k := LinkTo(v, placed[you], placed[h.client], h.count);
    var start := TakenBefore(v, placed, you, ordered, n);
    ChainOfClient(v, placed, you, ordered, n);
    var cells := StageCells(BuildTo(v, placed, you, ordered).positions, h);
    WholeChainIsClearExactly(v, rowScale, columnScale, k, start, cells);
  }

  // ----- A board on which it happens

  /** Eight nodes on four rows of five cells, one pixel each: YOU (0) at (4, 5), a client (1) at (1, 3), and six that
      stand in the way. */
  const CROWD: map<NodeId, Cell> := map[0 := Cell(4, 5), 1 := Cell(1, 3), 2 := Cell(1, 4), 3 := Cell(1, 5),
                                        4 := Cell(2, 5), 5 := Cell(3, 3), 6 := Cell(3, 4), 7 := Cell(3, 5)]

  function Small(): Canvas {
    Scaled(4, 5, 1, 1)
  }

  predicate Crowded(c: Cell) {
    c == Cell(4, 5) || c == Cell(1, 3) || c == Cell(1, 4) || c == Cell(1, 5) ||
    c == Cell(2, 5) || c == Cell(3, 3) || c == Cell(3, 4) || c == Cell(3, 5)
  }

  lemma CrowdIs(c: Cell)
    ensures c in CROWD.Values <==> Crowded(c)
  {
    assert CROWD[0] == Cell(4, 5) && CROWD[1] == Cell(1, 3) && CROWD[2] == Cell(1, 4) && CROWD[3] == Cell(1, 5);
    assert CROWD[4] == Cell(2, 5) && CROWD[5] == Cell(3, 3) && CROWD[6] == Cell(3, 4) && CROWD[7] == Cell(3, 5);
  }

  /** On the small board pixels are cells with their coordinates swapped. */
  function Swapped(c: Cell): Cell {
    Cell(c.b, c.a)
  }

  lemma SmallSegment(c: Cell, d: Cell, x: Cell)
    ensures x in Small().segment(c, d) <==> OnSegment(Swapped(c), Swapped(d), x)
    ensures Small().pixel(c) == Swapped(c)
  {
    SegmentHas(Swapped(c), Swapped(d), x);
  }

  lemma SmallPixels(cells: set<Cell>, x: Cell)
    ensures x in Pixels(Small(), cells) <==> Swapped(x) in cells
  {
    assert Small().pixel(Swapped(x)) == x;
  }

  /** Nothing on the ring comes before the first cardinal, and only that before the second. */
  lemma CardinalsComeFirst(e: Cell)
    requires Norm(e) >= 1
    ensures RingOrder(e) >= 0
    ensures var r: int := Norm(e); e != Cell(0, -r) ==> RingOrder(e) >= 1
  {
    PerimeterHas(Norm(e), e);
  }

  function Way(): Link {
    LinkTo(Small(), Cell(4, 5), Cell(1, 3), 3)
  }

  lemma IdealCells()
    ensures Way().ideal(1) == Cell(3, 4) && Way().ideal(2) == Cell(2, 4) && Way().ideal(3) == Cell(2, 4)
  {
    assert OnTheLine(4, 5, Cell(4, 5), Cell(1, 3), 3, 1) == Cell(3, 4);
    assert OnTheLine(4, 5, Cell(4, 5), Cell(1, 3), 3, 2) == Cell(2, 4);
    assert OnTheLine(4, 5, Cell(4, 5), Cell(1, 3), 3, 3) == Cell(2, 4);
  }

  // Stage 1: the wanted cell (3, 4) and its neighbour (3, 3) are taken, (4, 4) comes next.

  ghost predicate FirstLimits(l: Limits) {
    (forall c :: c in l.occupied <==> Crowded(c)) && l.previous == Cell(4, 5) && l.next.None?
  }

  lemma FirstStageSuits(l: Limits)
    requires FirstLimits(l)
    ensures Suitable(Small(), l)(Cell(4, 4))
  {
    forall x | x in Small().segment(l.previous, Cell(4, 4)) ensures x !in l.blocked {
      SmallSegment(l.previous, Cell(4, 4), x);
    }
  }

  lemma FirstStage(l: Limits)
    requires FirstLimits(l)
    ensures StageCell(Small(), l, Cell(3, 4)) == Cell(4, 4)
  {
    var centre, ok := Cell(3, 4), Suitable(Small(), l);
    FirstStageSuits(l);
    forall d | ok(d) && 1 <= Distance(centre, d) ensures NoLater(centre, Cell(4, 4), d) {
      CardinalsComeFirst(Minus(d, centre));
      assert RingOrder(Minus(Cell(4, 4), centre)) == 1;
    }
    FirstIsFound(centre, 1, 9, ok, Cell(4, 4));
  }

  // Stage 2: every neighbour of the wanted cell (2, 4) is refused, (2, 2) comes first on the next ring.

  ghost predicate SecondLimits(l: Limits) {
    && (forall c :: c in l.occupied <==> Crowded(c) || c == Cell(4, 4))
    && (forall x :: x in l.blocked <==> Crowded(Swapped(x)) || x == Cell(4, 4))
    && l.previous == Cell(4, 4) && l.next.None?
  }

  lemma SecondStageRefuses(l: Limits, d: Cell)
    requires SecondLimits(l) && Distance(Cell(2, 4), d) <= 1
    ensures !Suitable(Small(), l)(d)
  {
    if d == Cell(2, 4) {
      SmallSegment(l.previous, d, Cell(4, 3));
      assert Cell(4, 3) in Small().segment(l.previous, d) && Cell(4, 3) in l.blocked;
    } else if d == Cell(2, 3) {
      SmallSegment(l.previous, d, Cell(3, 3));
      assert Cell(3, 3) in Small().segment(l.previous, d) && Cell(3, 3) in l.blocked;
    }
  }

  lemma SecondStageSuits(l: Limits)
    requires SecondLimits(l)
    ensures Suitable(Small(), l)(Cell(2, 2))
  {
    forall x | x in Small().segment(l.previous, Cell(2, 2)) ensures x !in l.blocked {
      SmallSegment(l.previous, Cell(2, 2), x);
      WayDownIsFree(x);
    }
  }

  lemma WayDownIsFree(x: Cell)
    requires OnSegment(Cell(4, 4), Cell(2, 2), x)
    ensures !Crowded(Swapped(x)) && x != Cell(4, 4)
  {
    assert x == Cell(3, 4) || x == Cell(2, 4) || x == Cell(2, 3);
  }

  lemma SecondStage(l: Limits)
    requires SecondLimits(l)
    ensures StageCell(Small(), l, Cell(2, 4)) == Cell(2, 2)
  {
    var centre, ok := Cell(2, 4), Suitable(Small(), l);
    SecondStageSuits(l);
    SecondStageRefuses(l, centre);
    forall d | ok(d) && 1 <= Distance(centre, d) ensures NoLater(centre, Cell(2, 2), d) {
      if Distance(centre, d) <= 1 {
        SecondStageRefuses(l, d);
      }
      CardinalsComeFirst(Minus(d, centre));
      assert RingOrder(Minus(Cell(2, 2), centre)) == 0;
    }
    FirstIsFound(centre, 2, 9, ok, Cell(2, 2));
  }

  // Stage 3: the wanted cell (2, 4) satisfies its limits, and its two segments meet in pixel (3, 2).

  ghost predicate ThirdLimits(l: Limits) {
    && (forall c :: c in l.occupied <==> Crowded(c) || c == Cell(4, 4) || c == Cell(2, 2))
    && (forall x :: x in l.blocked <==> Crowded(Swapped(x)) || x == Cell(4, 4) || x == Cell(2, 2) ||
                                        OnSegment(Cell(4, 4), Cell(2, 2), x))
    && l.previous == Cell(2, 2) && l.next == Some(Cell(1, 3))
  }

  lemma LastWays(x: Cell)
    ensures OnSegment(Cell(2, 2), Cell(4, 2), x) || OnSegment(Cell(4, 2), Cell(3, 1), x) ==> x == Cell(3, 2)
  {
  }

  lemma LastWaysAreFree(l: Limits)
    requires ThirdLimits(l)
    ensures Cell(3, 2) !in l.blocked && Cell(2, 4) !in l.occupied
  {
    assert !OnSegment(Cell(4, 4), Cell(2, 2), Cell(3, 2));
  }

  lemma ThirdStage(l: Limits)
    requires ThirdLimits(l)
    ensures Satisfies(Small(), l, Cell(2, 4))
  {
    LastWaysAreFree(l);
    forall x | x in Small().segment(Cell(2, 2), Cell(2, 4)) ensures x == Cell(3, 2) {
      SmallSegment(Cell(2, 2), Cell(2, 4), x);
      LastWays(x);
    }
    forall x | x in Small().segment(Cell(2, 4), Cell(1, 3)) ensures x == Cell(3, 2) {
      SmallSegment(Cell(2, 4), Cell(1, 3), x);
      LastWays(x);
    }
  }

  // The three stages together.

  function Stages(): seq<Cell> {
    [Cell(4, 4), Cell(2, 2), Cell(2, 4)]
  }

  ghost function Now(cells: seq<Cell>): Limits {
    LimitsAt(Small(), Way(), CROWD.Values, cells, |cells|)
  }

  lemma CrowdPixels(x: Cell)
    ensures x in Pixels(Small(), CROWD.Values) <==> Crowded(Swapped(x))
  {
    SmallPixels(CROWD.Values, x);
    CrowdIs(Swapped(x));
  }

  lemma AtFirst()
    ensures FirstLimits(Now([]))
  {
    forall c ensures c in Now([]).occupied <==> Crowded(c) {
      CrowdIs(c);
    }
  }

  lemma AtSecond()
    ensures SecondLimits(Now([Cell(4, 4)]))
  {
    var cells := [Cell(4, 4)];
    assert cells[..1] == cells;
    forall c ensures c in Now(cells).occupied <==> Crowded(c) || c == Cell(4, 4) {
      CrowdIs(c);
    }
    forall x ensures x in Now(cells).blocked <==> Crowded(Swapped(x)) || x == Cell(4, 4) {
      BlockedSecond(x);
    }
  }

  lemma BlockedSecond(x: Cell)
    ensures x in Blocked(Small(), Way(), CROWD.Values, [Cell(4, 4)], 1) <==> Crowded(Swapped(x)) || x == Cell(4, 4)
  {
    BlockedNext(Small(), Way(), CROWD.Values, [], Cell(4, 4));
    assert [] + [Cell(4, 4)] == [Cell(4, 4)];
    CrowdPixels(x);
    SmallSegment(Cell(4, 5), Cell(4, 4), x);
  }

  lemma BlockedThird(x: Cell)
    ensures x in Blocked(Small(), Way(), CROWD.Values, [Cell(4, 4), Cell(2, 2)], 2) <==>
            Crowded(Swapped(x)) || x == Cell(4, 4) || x == Cell(2, 2) || OnSegment(Cell(4, 4), Cell(2, 2), x)
  {
    BlockedSecond(x);
    BlockedNext(Small(), Way(), CROWD.Values, [Cell(4, 4)], Cell(2, 2));
    assert [Cell(4, 4)] + [Cell(2, 2)] == [Cell(4, 4), Cell(2, 2)];
    SmallSegment(Cell(4, 4), Cell(2, 2), x);
  }

  lemma OccupiedThird(c: Cell)
    ensures c in Occupied(CROWD.Values, [Cell(4, 4), Cell(2, 2)]) <==> Crowded(c) || c == Cell(4, 4) || c == Cell(2, 2)
  {
    CrowdIs(c);
  }

  lemma AtThird()
    ensures ThirdLimits(Now([Cell(4, 4), Cell(2, 2)]))
  {
    LimitsNow(Small(), Way(), CROWD.Values, [Cell(4, 4), Cell(2, 2)]);
    forall c ensures c in Now([Cell(4, 4), Cell(2, 2)]).occupied <==> Crowded(c) || c == Cell(4, 4) || c == Cell(2, 2) {
      OccupiedThird(c);
    }
    forall x ensures x in Now([Cell(4, 4), Cell(2, 2)]).blocked <==>
                     Crowded(Swapped(x)) || x == Cell(4, 4) || x == Cell(2, 2) || OnSegment(Cell(4, 4), Cell(2, 2), x) {
      BlockedThird(x);
    }
  }

  /** Stage by stage, on any canvas. */
  lemma ThreeStages(v: Canvas, k: Link, start: set<Cell>, c1: Cell, c2: Cell, c3: Cell)
    requires k.pick(LimitsAt(v, k, start, [], 0), k.ideal(1)) == c1
    requires k.pick(LimitsAt(v, k, start, [c1], 1), k.ideal(2)) == c2
    requires k.pick(LimitsAt(v, k, start, [c1, c2], 2), k.ideal(3)) == c3
    requires Satisfies(v, LimitsAt(v, k, start, [], 0), c1) && Satisfies(v, LimitsAt(v, k, start, [c1], 1), c2)
    requires Satisfies(v, LimitsAt(v, k, start, [c1, c2], 2), c3)
    ensures CellsTo(v, k, start, 3) == [c1, c2, c3] && NeverFallsBack(v, k, start, [c1, c2, c3])
  {
    StageAdded(v, k, start, [], c1);
    assert [] + [c1] == [c1];
    StageAdded(v, k, start, [c1], c2);
    assert [c1] + [c2] == [c1, c2];
    StageAdded(v, k, start, [c1, c2], c3);
    assert [c1, c2] + [c3] == [c1, c2, c3];
    assert CellsTo(v, k, start, 1) == [c1] && CellsTo(v, k, start, 2) == [c1, c2];
  }

  lemma PickIs(l: Limits, c: Cell)
    ensures Way().pick(l, c) == StageCell(Small(), l, c)
  {
  }

  lemma PicksFirst()
    ensures Way().pick(Now([]), Way().ideal(1)) == Cell(4, 4) && Satisfies(Small(), Now([]), Cell(4, 4))
  {
    AtFirst();
    IdealCells();
    FirstStage(Now([]));
    FirstStageSuits(Now([]));
    PickIs(Now([]), Cell(3, 4));
  }

  lemma PicksSecond()
    ensures Way().pick(Now([Cell(4, 4)]), Way().ideal(2)) == Cell(2, 2) &&
      Satisfies(Small(), Now([Cell(4, 4)]), Cell(2, 2))
  {
    AtSecond();
    IdealCells();
    SecondStage(Now([Cell(4, 4)]));
    SecondStageSuits(Now([Cell(4, 4)]));
    PickIs(Now([Cell(4, 4)]), Cell(2, 4));
  }

  lemma PicksThird()
    ensures var l := Now([Cell(4, 4), Cell(2, 2)]);
      Way().pick(l, Way().ideal(3)) == Cell(2, 4) && Satisfies(Small(), l, Cell(2, 4))
  {
    AtThird();
    IdealCells();
    ThirdStage(Now([Cell(4, 4), Cell(2, 2)]));
    PickIs(Now([Cell(4, 4), Cell(2, 2)]), Cell(2, 4));
  }

  /** The code's own placement of the three stages; none of them falls back. */
  lemma CrowdStages()
    ensures Stages() == CellsTo(Small(), Way(), CROWD.Values, |Stages()|)
    ensures NeverFallsBack(Small(), Way(), CROWD.Values, Stages())
  {
    PicksFirst();
    PicksSecond();
    PicksThird();
    ThreeStages(Small(), Way(), CROWD.Values, Cell(4, 4), Cell(2, 2), Cell(2, 4));
  }

  /** A board for one client: its stages are placed without any fall-back, and yet the segment from the last one on to
      the client runs over the segment that enters it. */
  ghost predicate BuildRetraces(v: Canvas, placed: map<NodeId, Cell>, you: NodeId, h: Hop) {
    you in placed && HasChain(placed, h) &&
    var k, b := LinkTo(v, placed[you], placed[h.client], h.count), Build(v, placed, you, [h]);
    (forall i :: 1 <= i <= h.count ==> Stage(h.client, i) in b.positions) &&
    var cells := StageCells(b.positions, h);
    cells != [] && NeverFallsBack(v, k, placed.Values, cells) && !LastTurnIsClear(v, k, cells)
  }

  lemma BoardRetraces(v: Canvas, placed: map<NodeId, Cell>, you: NodeId, h: Hop, k: Link, cells: seq<Cell>)
    requires you in placed && HasChain(placed, h) && k == LinkTo(v, placed[you], placed[h.client], h.count)
    requires h.count == |cells| && cells == CellsTo(v, k, placed.Values, |cells|)
    requires cells != [] && NeverFallsBack(v, k, placed.Values, cells) && !LastTurnIsClear(v, k, cells)
    ensures BuildRetraces(v, placed, you, h)
  {
    assert Sort([h], ClientFirst) == [h];
    assert [h][..0] == [];
    ClientStages(v, placed, you, [h], 0);
  }

  lemma CrowdRetraces()
    ensures !LastTurnIsClear(Small(), Way(), Stages())
  {
    SmallSegment(Cell(2, 2), Cell(2, 4), Cell(3, 2));
    SmallSegment(Cell(2, 4), Cell(1, 3), Cell(3, 2));
  }

  lemma CrowdEnds()
    ensures 0 in CROWD && 1 in CROWD && Way() == LinkTo(Small(), CROWD[0], CROWD[1], 3)
  {
  }

  lemma CrowdChain() returns (placed: map<NodeId, Cell>, k: Link, cells: seq<Cell>)
    ensures 0 in placed && 1 in placed && k == LinkTo(Small(), placed[0], placed[1], |cells|)
    ensures |cells| == 3 && cells == CellsTo(Small(), k, placed.Values, |cells|)
    ensures NeverFallsBack(Small(), k, placed.Values, cells) && !LastTurnIsClear(Small(), k, cells)
  {
    CrowdEnds();
    CrowdStages();
    CrowdRetraces();
    placed, k, cells := CROWD, Way(), Stages();
  }

  /** It happens on four rows of five cells with one pixel each. */
  lemma LastTurnMayRetrace()
    ensures exists v, placed, you, h ::
      DrawnAt(v, 1, 1) && v.rows == 4 && v.columns == 5 && BuildRetraces(v, placed, you, h)
  {
    var placed, k, cells := CrowdChain();
    BoardRetraces(Small(), placed, 0, Hop(1, |cells|), k, cells);
    assert DrawnAt(Small(), 1, 1) && BuildRetraces(Small(), placed, 0, Hop(1, |cells|));
  }
}
