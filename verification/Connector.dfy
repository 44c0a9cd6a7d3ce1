/** Orthogonal connectors between two pixel positions: one elbow at most, ends excluded. */
module Connector {
  import opened Common
  import opened Grid

  datatype Glyph =
    | HORIZONTAL | VERTICAL
    | DOWN_LEFT   // the corner with strokes to the south and the west
    | UP_LEFT
    | DOWN_RIGHT
    | UP_RIGHT
    | DASHED_HORIZONTAL | DASHED_VERTICAL

  datatype Side = NORTH | EAST | SOUTH | WEST

  /** The sides of its cell a glyph draws towards. */
  function Strokes(g: Glyph): set<Side> {
    match g
    case HORIZONTAL => {WEST, EAST}
    case VERTICAL => {NORTH, SOUTH}
    case DOWN_LEFT => {SOUTH, WEST}
    case UP_LEFT => {NORTH, WEST}
    case DOWN_RIGHT => {SOUTH, EAST}
    case UP_RIGHT => {NORTH, EAST}
    case DASHED_HORIZONTAL => {WEST, EAST}
    case DASHED_VERTICAL => {NORTH, SOUTH}
  }

  /** A drawn cell: its pixel (x, y), y growing downwards, and its glyph. */
  datatype Mark = Mark(at: Cell, glyph: Glyph)

  predicate Adjacent(c: Cell, d: Cell) {
    Abs(c.a - d.a) + Abs(c.b - d.b) == 1
  }

  /** The side of `c` on which its neighbour `d` lies. */
  function SideOf(c: Cell, d: Cell): Side {
    if d.a > c.a then EAST
    else if d.a < c.a then WEST
    else if d.b > c.b then SOUTH
    else NORTH
  }

  // ----- The two elbow orders

  function Toward(u: int, v: int): int {
    if v > u then 1 else -1
  }

  function Length(p: Cell, q: Cell): nat {
    Abs(p.a - q.a) + Abs(p.b - q.b)
  }

  /** The i-th cell on the way from p to q, along p's row first. */
  function AcrossThenDown(p: Cell, q: Cell, i: nat): Cell {
    if i <= Abs(p.a - q.a) then Cell(p.a + Toward(p.a, q.a) * i, p.b)
    else Cell(q.a, p.b + Toward(p.b, q.b) * (i - Abs(p.a - q.a)))
  }

  /** The i-th cell on the way from p to q, along p's column first. */
  function DownThenAcross(p: Cell, q: Cell, i: nat): Cell {
    if i <= Abs(p.b - q.b) then Cell(p.a, p.b + Toward(p.b, q.b) * i)
    else Cell(p.a + Toward(p.a, q.a) * (i - Abs(p.b - q.b)), q.b)
  }

  function ElbowGlyph(stepX: int, stepY: int): Glyph {
    if stepX > 0 then (if stepY > 0 then DOWN_LEFT else UP_LEFT)
    else (if stepY > 0 then DOWN_RIGHT else UP_RIGHT)
  }

  function ElbowGlyphVH(stepX: int, stepY: int): Glyph {
    if stepY > 0 then (if stepX > 0 then UP_RIGHT else UP_LEFT)
    else (if stepX > 0 then DOWN_RIGHT else DOWN_LEFT)
  }

  function Mark1(p: Cell, q: Cell, i: nat): Mark {
    Mark(AcrossThenDown(p, q, i),
         if i < Abs(p.a - q.a) then HORIZONTAL
         else if p.a == q.a || i > Abs(p.a - q.a) then VERTICAL
         else ElbowGlyph(Toward(p.a, q.a), Toward(p.b, q.b)))
  }

  function Mark2(p: Cell, q: Cell, i: nat): Mark {
    Mark(DownThenAcross(p, q, i),
         if i < Abs(p.b - q.b) then VERTICAL
         else if p.b == q.b || i > Abs(p.b - q.b) then HORIZONTAL
         else ElbowGlyphVH(Toward(p.a, q.a), Toward(p.b, q.b)))
  }

  function Route(p: Cell, q: Cell): seq<Mark> {
    if p == q then [] else seq(Length(p, q) - 1, i requires 0 <= i => Mark1(p, q, i + 1))
  }

  function AlternateRoute(p: Cell, q: Cell): seq<Mark> {
    if p.a == q.a || p.b == q.b then Route(p, q)
    else seq(Length(p, q) - 1, i requires 0 <= i => Mark2(p, q, i + 1))
  }

  /** The marks on p's row, up to the column of q. */
  method AcrossRow(p: Cell, q: Cell) returns (marks: seq<Mark>)
    requires p.a != q.a
    ensures |marks| == Abs(p.a - q.a) - 1 <= |Route(p, q)| && marks == Route(p, q)[..|marks|]
  {
    marks := [];
    var stepX := Toward(p.a, q.a);
    var x := p.a + stepX;
    while x != q.a
      invariant |marks| + 1 <= Abs(p.a - q.a) && x == p.a + stepX * (|marks| + 1)
      invariant marks == Route(p, q)[..|marks|]
      decreases Abs(q.a - x)
    {
      marks := marks + [Mark(Cell(x, p.b), HORIZONTAL)];
      x := x + stepX;
    }
  }

  /** The marks on q's column, after `across` marks on the way to it. */
  method DownColumn(p: Cell, q: Cell, across: seq<Mark>) returns (marks: seq<Mark>)
    requires p.b != q.b && |across| == Abs(p.a - q.a) <= |Route(p, q)| && across == Route(p, q)[..|across|]
    ensures marks == Route(p, q)
  {
    marks := across;
    var stepY := Toward(p.b, q.b);
    var y := p.b + stepY;
    while y != q.b
      invariant Abs(p.a - q.a) <= |marks| && |marks| + 1 <= Length(p, q)
      invariant y == p.b + stepY * (|marks| + 1 - Abs(p.a - q.a))
      invariant marks == Route(p, q)[..|marks|]
      decreases Abs(q.b - y)
    {
      marks := marks + [Mark(Cell(q.a, y), VERTICAL)];
      y := y + stepY;
    }
  }

  method RouteConnector(p: Cell, q: Cell) returns (marks: seq<Mark>)
    ensures marks == Route(p, q)
  {
    marks := [];
    if p == q {
      return;
    }
    if p.b == q.b {
      marks := AcrossRow(p, q);
      return;
    }
    if p.a != q.a {
      marks := AcrossRow(p, q);
      marks := marks + [Mark(Cell(q.a, p.b), ElbowGlyph(Toward(p.a, q.a), Toward(p.b, q.b)))];
    }
    marks := DownColumn(p, q, marks);
  }

  /** The marks on p's column, up to the row of q. */
  method DownFirst(p: Cell, q: Cell) returns (marks: seq<Mark>)
    requires p.a != q.a && p.b != q.b
    ensures |marks| == Abs(p.b - q.b) - 1 <= |AlternateRoute(p, q)| && marks == AlternateRoute(p, q)[..|marks|]
  {
    marks := [];
    var stepY := Toward(p.b, q.b);
    var y := p.b + stepY;
    while y != q.b
      invariant |marks| + 1 <= Abs(p.b - q.b) && y == p.b + stepY * (|marks| + 1)
      invariant marks == AlternateRoute(p, q)[..|marks|]
      decreases Abs(q.b - y)
    {
      marks := marks + [Mark(Cell(p.a, y), VERTICAL)];
      y := y + stepY;
    }
  }

  /** The marks on q's row, after `down` marks on the way to it. */
  method AcrossLast(p: Cell, q: Cell, down: seq<Mark>) returns (marks: seq<Mark>)
    requires p.a != q.a && p.b != q.b && |down| == Abs(p.b - q.b) <= |AlternateRoute(p, q)|
    requires down == AlternateRoute(p, q)[..|down|]
    ensures marks == AlternateRoute(p, q)
  {
    marks := down;
    var stepX := Toward(p.a, q.a);
    var x := p.a + stepX;
    while x != q.a
      invariant Abs(p.b - q.b) <= |marks| && |marks| + 1 <= Length(p, q)
      invariant x == p.a + stepX * (|marks| + 1 - Abs(p.b - q.b))
      invariant marks == AlternateRoute(p, q)[..|marks|]
      decreases Abs(q.a - x)
    {
      marks := marks + [Mark(Cell(x, q.b), HORIZONTAL)];
      x := x + stepX;
    }
  }

  method RouteConnectorAlternateElbow(p: Cell, q: Cell) returns (marks: seq<Mark>)
    ensures marks == AlternateRoute(p, q)
  {
    if p.a == q.a || p.b == q.b {
      marks := RouteConnector(p, q);
      return;
    }
    marks := DownFirst(p, q);
    marks := marks + [Mark(Cell(p.a, q.b), ElbowGlyphVH(Toward(p.a, q.a), Toward(p.b, q.b)))];
    marks := AcrossLast(p, q, marks);
  }

  // ----- What a drawn connector looks like

  /** Position k of the walk p, marks..., q. */
  function Stop(p: Cell, marks: seq<Mark>, q: Cell, k: nat): Cell
    requires k <= |marks| + 1
  {
    if k == 0 then p else if k == |marks| + 1 then q else marks[k - 1].at
  }

  ghost predicate OneCellAtATime(p: Cell, marks: seq<Mark>, q: Cell) {
    forall k :: 0 <= k <= |marks| ==> Adjacent(Stop(p, marks, q, k), Stop(p, marks, q, k + 1))
  }

  ghost predicate NeverBack(p: Cell, marks: seq<Mark>, q: Cell) {
    forall j, k :: 0 <= j < k <= |marks| + 1 ==> Stop(p, marks, q, j) != Stop(p, marks, q, k)
  }

  ghost predicate DrawnBothWays(p: Cell, marks: seq<Mark>, q: Cell) {
    forall k {:trigger marks[k]} :: 0 <= k < |marks| ==>
      Strokes(marks[k].glyph) ==
        {SideOf(marks[k].at, Stop(p, marks, q, k)), SideOf(marks[k].at, Stop(p, marks, q, k + 2))}
  }

  /** The marks lead from p to q one cell at a time, never twice over the same cell, never over an end,
      and every glyph draws exactly towards the cell before and the cell after it. */
  ghost predicate Joins(p: Cell, marks: seq<Mark>, q: Cell) {
    OneCellAtATime(p, marks, q) && NeverBack(p, marks, q) && DrawnBothWays(p, marks, q)
  }

  lemma AcrossStop(p: Cell, q: Cell, k: nat)
    requires p != q && k <= Length(p, q)
    ensures |Route(p, q)| == Length(p, q) - 1
    ensures Stop(p, Route(p, q), q, k) == AcrossThenDown(p, q, k)
  {
  }

  lemma DownStop(p: Cell, q: Cell, k: nat)
    requires p.a != q.a && p.b != q.b && k <= Length(p, q)
    ensures |AlternateRoute(p, q)| == Length(p, q) - 1
    ensures Stop(p, AlternateRoute(p, q), q, k) == DownThenAcross(p, q, k)
  {
  }

  lemma RouteAdvances(p: Cell, q: Cell)
    requires p != q
    ensures OneCellAtATime(p, Route(p, q), q)
  {
    var r := Route(p, q);
    forall k | 0 <= k <= |r| ensures Adjacent(Stop(p, r, q, k), Stop(p, r, q, k + 1)) {
      AcrossStop(p, q, k);
      AcrossStop(p, q, k + 1);
    }
  }

  lemma RouteNeverTurnsBack(p: Cell, q: Cell)
    requires p != q
    ensures NeverBack(p, Route(p, q), q)
  {
    var r := Route(p, q);
    forall j, k | 0 <= j < k <= |r| + 1 ensures Stop(p, r, q, j) != Stop(p, r, q, k) {
      AcrossStop(p, q, j);
      AcrossStop(p, q, k);
    }
  }

  lemma RouteGlyph(p: Cell, q: Cell, k: nat)
    requires p != q && k + 1 < Length(p, q)
    ensures |Route(p, q)| == Length(p, q) - 1
    ensures var r := Route(p, q);
      Strokes(r[k].glyph) == {SideOf(r[k].at, Stop(p, r, q, k)), SideOf(r[k].at, Stop(p, r, q, k + 2))}
  {
    AcrossStop(p, q, k);
    AcrossStop(p, q, k + 2);
    assert Route(p, q)[k] == Mark1(p, q, k + 1);
  }

  lemma RouteJoins(p: Cell, q: Cell)
    requires p != q
    ensures |Route(p, q)| == Length(p, q) - 1 && Joins(p, Route(p, q), q)
  {
    RouteAdvances(p, q);
    RouteNeverTurnsBack(p, q);
    var r := Route(p, q);
    forall k | 0 <= k < |r|
      ensures Strokes(r[k].glyph) == {SideOf(r[k].at, Stop(p, r, q, k)), SideOf(r[k].at, Stop(p, r, q, k + 2))}
    {
      RouteGlyph(p, q, k);
    }
  }

  lemma AlternateRouteAdvances(p: Cell, q: Cell)
    requires p.a != q.a && p.b != q.b
    ensures OneCellAtATime(p, AlternateRoute(p, q), q)
  {
    var r := AlternateRoute(p, q);
    forall k | 0 <= k <= |r| ensures Adjacent(Stop(p, r, q, k), Stop(p, r, q, k + 1)) {
      DownStop(p, q, k);
      DownStop(p, q, k + 1);
    }
  }

  lemma AlternateRouteNeverTurnsBack(p: Cell, q: Cell)
    requires p.a != q.a && p.b != q.b
    ensures NeverBack(p, AlternateRoute(p, q), q)
  {
    var r := AlternateRoute(p, q);
    forall j, k | 0 <= j < k <= |r| + 1 ensures Stop(p, r, q, j) != Stop(p, r, q, k) {
      DownStop(p, q, j);
      DownStop(p, q, k);
    }
  }

  lemma AlternateRouteGlyph(p: Cell, q: Cell, k: nat)
    requires p.a != q.a && p.b != q.b && k + 1 < Length(p, q)
    ensures |AlternateRoute(p, q)| == Length(p, q) - 1
    ensures var r := AlternateRoute(p, q);
      Strokes(r[k].glyph) == {SideOf(r[k].at, Stop(p, r, q, k)), SideOf(r[k].at, Stop(p, r, q, k + 2))}
  {
    DownStop(p, q, k);
    DownStop(p, q, k + 2);
    assert AlternateRoute(p, q)[k] == Mark2(p, q, k + 1);
  }

  lemma AlternateRouteJoins(p: Cell, q: Cell)
    requires p != q
    ensures |AlternateRoute(p, q)| == Length(p, q) - 1 && Joins(p, AlternateRoute(p, q), q)
  {
    if p.a == q.a || p.b == q.b {
      RouteJoins(p, q);
    } else {
      AlternateRouteAdvances(p, q);
      AlternateRouteNeverTurnsBack(p, q);
      var r := AlternateRoute(p, q);
      forall k | 0 <= k < |r|
        ensures Strokes(r[k].glyph) == {SideOf(r[k].at, Stop(p, r, q, k)), SideOf(r[k].at, Stop(p, r, q, k + 2))}
      {
        AlternateRouteGlyph(p, q, k);
      }
    }
  }

  // ----- Steering around obstacles

  function Cells(marks: seq<Mark>): set<Cell> {
    set m | m in marks :: m.at
  }

  predicate Hits(marks: seq<Mark>, obstacles: set<Cell>) {
    exists m :: m in marks && m.at in obstacles
  }

  function RouteAvoiding(p: Cell, q: Cell, obstacles: set<Cell>): seq<Mark> {
    if !Hits(Route(p, q), obstacles) then Route(p, q)
    else if !Hits(AlternateRoute(p, q), obstacles) then AlternateRoute(p, q)
    else Route(p, q)
  }

  method RouteConnectorAvoiding(p: Cell, q: Cell, obstacles: set<Cell>) returns (marks: seq<Mark>)
    ensures marks == RouteAvoiding(p, q, obstacles)
  {
    var primary := RouteConnector(p, q);
    if !Hits(primary, obstacles) {
      return primary;
    }
    var alternate := RouteConnectorAlternateElbow(p, q);
    if !Hits(alternate, obstacles) {
      return alternate;
    }
    return primary;
  }

  /** The chosen connector is a proper one, and it hits an obstacle only if both elbow orders do. */
  lemma AvoidingIsBest(p: Cell, q: Cell, obstacles: set<Cell>)
    ensures var r := RouteAvoiding(p, q, obstacles);
      && (p == q ==> r == [])
      && (p != q ==> |r| == Length(p, q) - 1 && Joins(p, r, q))
      && (Hits(r, obstacles) <==> Hits(Route(p, q), obstacles) && Hits(AlternateRoute(p, q), obstacles))
  {
    if p != q {
      RouteJoins(p, q);
      AlternateRouteJoins(p, q);
    }
  }

  /** One connector never repeats a cell. */
  lemma SegmentIsRepeatFree(p: Cell, q: Cell, obstacles: set<Cell>)
    ensures RepeatFree(RouteAvoiding(p, q, obstacles))
  {
    AvoidingIsBest(p, q, obstacles);
    var r := RouteAvoiding(p, q, obstacles);
    forall j, k | 0 <= j < k < |r| ensures r[j].at != r[k].at {
      assert Stop(p, r, q, j + 1) == r[j].at && Stop(p, r, q, k + 1) == r[k].at;
    }
  }

  ghost predicate RepeatFree(marks: seq<Mark>) {
    forall j, k :: 0 <= j < k < |marks| ==> marks[j].at != marks[k].at
  }

  /** A whole chain, segment after segment. */
  function RouteChain(points: seq<Cell>, obstacles: set<Cell>): seq<Mark> {
    if |points| < 2 then []
    else RouteChain(points[..|points| - 1], obstacles) +
         RouteAvoiding(points[|points| - 2], points[|points| - 1], obstacles)
  }

  method RouteChainAvoiding(points: seq<Cell>, obstacles: set<Cell>) returns (marks: seq<Mark>)
    ensures marks == RouteChain(points, obstacles)
  {
    marks := [];
    var k := 1;
    while k < |points|
      invariant 1 <= k <= Max(1, |points|)
      invariant marks == RouteChain(points[..Min(k, |points|)], obstacles)
    {
      assert points[..k + 1][..k] == points[..k];
      var segment := RouteConnectorAvoiding(points[k - 1], points[k], obstacles);
      marks := marks + segment;
      k := k + 1;
    }
    assert points[..|points|] == points;
  }
}
