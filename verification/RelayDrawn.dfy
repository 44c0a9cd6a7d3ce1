/** From the stages placed to the connector drawn: when a relay chain is really drawn through its stages. */
module RelayDrawn {
  import opened Common
  import opened Sorting
  import opened Grid
  import opened Slots
  import opened Connector
  import opened Relay
  import opened RelayTurns
  import S = Scene

  // ----- A path routed segment by segment

  /** The pixels of the i-th segment of a path, in the primary order. */
  function Leg(points: seq<Cell>, i: nat): set<Cell>
    requires i + 1 < |points|
  {
    Cells(Route(points[i], points[i + 1]))
  }

  ghost predicate LegsApart(points: seq<Cell>) {
    forall i, j :: 0 <= i < j < |points| - 1 ==> Leg(points, i) !! Leg(points, j)
  }

  ghost predicate LegsMiss(points: seq<Cell>, obstacles: set<Cell>) {
    forall i :: 0 <= i < |points| - 1 ==> Leg(points, i) !! obstacles
  }

  function Primary(points: seq<Cell>): seq<Mark> {
    if |points| < 2 then []
    else Primary(points[..|points| - 1]) + Route(points[|points| - 2], points[|points| - 1])
  }

  lemma LegOfFront(points: seq<Cell>, i: nat)
    requires i + 2 < |points|
    ensures Leg(points[..|points| - 1], i) == Leg(points, i)
  {
  }

  lemma FrontMisses(points: seq<Cell>, obstacles: set<Cell>)
    requires |points| >= 2 && LegsMiss(points, obstacles)
    ensures LegsMiss(points[..|points| - 1], obstacles) && Leg(points, |points| - 2) !! obstacles
  {
    var front := points[..|points| - 1];
    forall i | 0 <= i < |front| - 1 ensures Leg(front, i) !! obstacles {
      LegOfFront(points, i);
    }
  }

  /** With no obstacle on them, all segments are routed in the primary order. */
  lemma {:induction false} ClearPathIsPrimary(points: seq<Cell>, obstacles: set<Cell>)
    requires LegsMiss(points, obstacles)
    ensures RouteChain(points, obstacles) == Primary(points)
  {
    if |points| >= 2 {
      FrontMisses(points, obstacles);
      ClearPathIsPrimary(points[..|points| - 1], obstacles);
      assert !Hits(Route(points[|points| - 2], points[|points| - 1]), obstacles);
    }
  }

  ghost predicate OnLegs(points: seq<Cell>, x: Cell) {
    exists i :: 0 <= i < |points| - 1 && x in Leg(points, i)
  }

  lemma FrontLegs(points: seq<Cell>, x: Cell)
    requires |points| >= 2
    ensures OnLegs(points, x) <==> OnLegs(points[..|points| - 1], x) || x in Leg(points, |points| - 2)
  {
    var n := |points| - 2;
    var front := points[..n + 1];
    forall i | 0 <= i < n ensures x in Leg(front, i) <==> x in Leg(points, i) {
      LegOfFront(points, i);
    }
    if OnLegs(front, x) {
      var i :| 0 <= i < n && x in Leg(front, i);
      assert x in Leg(points, i);
    }
  }

  lemma {:induction false} PrimaryCells(points: seq<Cell>, x: Cell)
    ensures x in Cells(Primary(points)) <==> OnLegs(points, x)
  {
    if |points| >= 2 {
      var n := |points| - 2;
      PrimaryCells(points[..n + 1], x);
      FrontLegs(points, x);
      JoinedCells(Primary(points[..n + 1]), Route(points[n], points[n + 1]));
    }
  }

  lemma JoinedCells(a: seq<Mark>, b: seq<Mark>)
    ensures Cells(a + b) == Cells(a) + Cells(b)
  {
    assert forall m :: m in a + b <==> m in a || m in b;
  }

  lemma JoinedRepeatFree(a: seq<Mark>, b: seq<Mark>)
    ensures RepeatFree(a + b) <==> RepeatFree(a) && RepeatFree(b) && Cells(a) !! Cells(b)
  {
    var s := a + b;
    if RepeatFree(s) {
      forall i, j | 0 <= i < j < |a| ensures a[i].at != a[j].at {
        assert s[i] == a[i] && s[j] == a[j];
      }
      forall i, j | 0 <= i < j < |b| ensures b[i].at != b[j].at {
        assert s[|a| + i] == b[i] && s[|a| + j] == b[j];
      }
      forall m, n | m in a && n in b ensures m.at != n.at {
        var i :| 0 <= i < |a| && a[i] == m;
        var j :| 0 <= j < |b| && b[j] == n;
        assert s[i] == m && s[|a| + j] == n;
      }
    } else if RepeatFree(a) && RepeatFree(b) {
      var i, j :| 0 <= i < j < |s| && s[i].at == s[j].at;
      assert i < |a| <= j;
      assert a[i] in a && b[j - |a|] in b;
      assert a[i].at in Cells(a) && a[i].at in Cells(b);
    }
  }

  lemma RouteIsRepeatFree(p: Cell, q: Cell)
    ensures RepeatFree(Route(p, q))
  {
    SegmentIsRepeatFree(p, q, {});
    assert !Hits(Route(p, q), {});
  }

  lemma MissedBySegments(points: seq<Cell>, pixels: set<Cell>)
    ensures LegsMiss(points, pixels) <==> Cells(Primary(points)) !! pixels
  {
    if LegsMiss(points, pixels) {
      forall x | x in Cells(Primary(points)) ensures x !in pixels {
        PrimaryCells(points, x);
        var i :| 0 <= i < |points| - 1 && x in Leg(points, i);
      }
    }
    if Cells(Primary(points)) !! pixels {
      forall i | 0 <= i < |points| - 1 ensures Leg(points, i) !! pixels {
        forall x | x in Leg(points, i) ensures x !in pixels {
          PrimaryCells(points, x);
        }
      }
    }
  }

  lemma FrontApart(points: seq<Cell>)
    requires |points| >= 2
    ensures LegsApart(points) <==>
            LegsApart(points[..|points| - 1]) && LegsMiss(points[..|points| - 1], Leg(points, |points| - 2))
  {
    var n := |points| - 2;
    var front := points[..n + 1];
    forall i | 0 <= i < n ensures Leg(front, i) == Leg(points, i) {
      LegOfFront(points, i);
    }
    if LegsApart(points) {
      forall i, j | 0 <= i < j < n ensures Leg(front, i) !! Leg(front, j) {
        assert Leg(points, i) !! Leg(points, j);
      }
    }
    if LegsApart(front) && LegsMiss(front, Leg(points, n)) {
      forall i, j | 0 <= i < j < n + 1 ensures Leg(points, i) !! Leg(points, j) {
        if j < n {
          assert Leg(front, i) !! Leg(front, j);
        } else {
          assert Leg(front, i) !! Leg(points, n);
        }
      }
    }
  }

  /** Such a path repeats a cell exactly when two of its segments share one. */
  lemma {:induction false} PrimaryRepeatsExactly(points: seq<Cell>)
    ensures RepeatFree(Primary(points)) <==> LegsApart(points)
  {
    if |points| >= 2 {
      var n := |points| - 2;
      FrontApart(points);
      MissedBySegments(points[..n + 1], Leg(points, n));
      PrimaryRepeatsExactly(points[..n + 1]);
      RouteIsRepeatFree(points[n], points[n + 1]);
      JoinedRepeatFree(Primary(points[..n + 1]), Route(points[n], points[n + 1]));
    }
  }

  // ----- One chain on the screen

  /** YOU, the stages, the client. */
  function Stops(k: Link, cells: seq<Cell>): seq<Cell> {
    [k.you] + cells + [k.client]
  }

  /** Where a path is drawn when the whole board is moved by so many pixels. */
  function OnScreen(v: Canvas, shift: Cell, path: seq<Cell>): seq<Cell> {
    seq(|path|, i requires 0 <= i < |path| => Plus(v.pixel(path[i]), shift))
  }

  lemma MovedRoute(p: Cell, q: Cell, shift: Cell, x: Cell)
    ensures x in Cells(Route(Plus(p, shift), Plus(q, shift))) <==> Minus(x, shift) in Cells(Route(p, q))
  {
    SegmentHas(Plus(p, shift), Plus(q, shift), x);
    SegmentHas(p, q, Minus(x, shift));
  }

  lemma LegIsSegment(v: Canvas, rowScale: int, columnScale: int, shift: Cell, path: seq<Cell>, i: nat, x: Cell)
    requires DrawnAt(v, rowScale, columnScale) && i + 1 < |path|
    ensures x in Leg(OnScreen(v, shift, path), i) <==> Minus(x, shift) in v.segment(path[i], path[i + 1])
  {
    MovedRoute(v.pixel(path[i]), v.pixel(path[i + 1]), shift, x);
  }

  lemma LegIsMoved(v: Canvas, rowScale: int, columnScale: int, shift: Cell, path: seq<Cell>, i: nat)
    requires DrawnAt(v, rowScale, columnScale) && i + 1 < |path|
    ensures forall x :: x in Leg(OnScreen(v, shift, path), i) <==> Minus(x, shift) in v.segment(path[i], path[i + 1])
  {
    forall x ensures x in Leg(OnScreen(v, shift, path), i) <==> Minus(x, shift) in v.segment(path[i], path[i + 1]) {
      LegIsSegment(v, rowScale, columnScale, shift, path, i, x);
    }
  }

  lemma MovedApart(a: set<Cell>, b: set<Cell>, moved: set<Cell>, moved': set<Cell>, shift: Cell)
    requires forall x :: x in moved <==> Minus(x, shift) in a
    requires forall x :: x in moved' <==> Minus(x, shift) in b
    ensures moved !! moved' <==> a !! b
  {
    forall y | y in a && y in b ensures Plus(y, shift) in moved && Plus(y, shift) in moved' {
      assert Minus(Plus(y, shift), shift) == y;
    }
  }

  /** Moving the board changes nothing about which segments meet. */
  lemma LegsMeet(v: Canvas, rowScale: int, columnScale: int, shift: Cell, path: seq<Cell>, i: nat, j: nat)
    requires DrawnAt(v, rowScale, columnScale) && i + 1 < |path| && j + 1 < |path|
    ensures Leg(OnScreen(v, shift, path), i) !! Leg(OnScreen(v, shift, path), j)
       <==> v.segment(path[i], path[i + 1]) !! v.segment(path[j], path[j + 1])
  {
    LegIsMoved(v, rowScale, columnScale, shift, path, i);
    LegIsMoved(v, rowScale, columnScale, shift, path, j);
    MovedApart(v.segment(path[i], path[i + 1]), v.segment(path[j], path[j + 1]),
               Leg(OnScreen(v, shift, path), i), Leg(OnScreen(v, shift, path), j), shift);
  }

  /** The i-th segment: into the next stage, or from the last one on to the client. */
  function Hopped(v: Canvas, k: Link, cells: seq<Cell>, i: nat): set<Cell>
    requires i <= |cells| && cells != []
  {
    if i < |cells| then v.segment(Point(k, cells, i), cells[i]) else v.segment(cells[i - 1], k.client)
  }

  lemma StopsAre(v: Canvas, k: Link, cells: seq<Cell>, i: nat)
    requires i <= |cells| && cells != []
    ensures v.segment(Stops(k, cells)[i], Stops(k, cells)[i + 1]) == Hopped(v, k, cells, i)
  {
  }

  lemma HopsApart(v: Canvas, k: Link, start: set<Cell>, cells: seq<Cell>, i: nat, j: nat)
    requires cells != [] && RunsClear(v, k, start, cells) && i < j <= |cells|
    ensures Hopped(v, k, cells, i) !! Hopped(v, k, cells, j) || (i == |cells| - 1 && j == |cells|)
    ensures i == |cells| - 1 ==> (Hopped(v, k, cells, i) !! Hopped(v, k, cells, j) <==> LastTurnIsClear(v, k, cells))
  {
    if j < |cells| {
      assert EntryIsClear(v, k, start, cells, j);
      assert cells[i] == cells[i];
    } else if i < |cells| - 1 {
      assert SegmentIsClear(v, k, start, cells, |cells| - 1, v.segment(cells[|cells| - 1], k.client));
      assert cells[i] == cells[i];
    }
  }

  /** The same for the legs of the drawn path. */
  lemma DrawnLegsApart(v: Canvas, rowScale: int, columnScale: int, shift: Cell, k: Link, start: set<Cell>,
                       cells: seq<Cell>, points: seq<Cell>, i: nat, j: nat)
    requires DrawnAt(v, rowScale, columnScale) && cells != [] && RunsClear(v, k, start, cells) && i < j <= |cells|
    requires points == OnScreen(v, shift, Stops(k, cells))
    ensures |points| == |cells| + 2
    ensures Leg(points, i) !! Leg(points, j) || (i == |cells| - 1 && j == |cells|)
    ensures i == |cells| - 1 ==> (Leg(points, i) !! Leg(points, j) <==> LastTurnIsClear(v, k, cells))
  {
    LegsMeet(v, rowScale, columnScale, shift, Stops(k, cells), i, j);
    StopsAre(v, k, cells, i);
    StopsAre(v, k, cells, j);
    HopsApart(v, k, start, cells, i, j);
  }

  /** All segments of a chain that never falls back are apart exactly when the last turn is clear. */
  lemma ChainLegsApart(v: Canvas, rowScale: int, columnScale: int, shift: Cell, k: Link, start: set<Cell>,
                       cells: seq<Cell>, points: seq<Cell>)
    requires DrawnAt(v, rowScale, columnScale) && cells != [] && RunsClear(v, k, start, cells)
    requires points == OnScreen(v, shift, Stops(k, cells))
    ensures LegsApart(points) <==> LastTurnIsClear(v, k, cells)
  {
    DrawnLegsApart(v, rowScale, columnScale, shift, k, start, cells, points, |cells| - 1, |cells|);
    if LastTurnIsClear(v, k, cells) {
      forall i, j | 0 <= i < j < |points| - 1 ensures Leg(points, i) !! Leg(points, j) {
        DrawnLegsApart(v, rowScale, columnScale, shift, k, start, cells, points, i, j);
      }
    } else {
      assert !(Leg(points, |cells| - 1) !! Leg(points, |cells|));
    }
  }

  // ----- One destination of a scene

  /** The view shows the destination's whole chain, its stages unclipped, where the canvas has it. */
  ghost predicate ShowsChain(view: S.View, d: S.Destination, v: Canvas, shift: Cell, k: Link, cells: seq<Cell>) {
    && view.you in view.centers && d.id in view.centers && d.explicitForward.None?
    && view.centers[view.you] == Plus(v.pixel(k.you), shift) && view.centers[d.id] == Plus(v.pixel(k.client), shift)
    && |d.relayStages| == |cells|
    && forall i :: 0 <= i < |cells| ==>
         && d.relayStages[i] in view.centers && d.relayStages[i] !in view.edge
         && view.centers[d.relayStages[i]] == Plus(v.pixel(cells[i]), shift)
  }

  /** Whoever else is on the board sits on a cell taken before the chain was placed, or off the chain's own pixels. */
  ghost predicate OthersKeepOff(view: S.View, d: S.Destination, v: Canvas, shift: Cell, k: Link, start: set<Cell>,
                                cells: seq<Cell>) {
    forall o :: o in view.centers && o !in S.Members(view, d) ==>
      || (exists c :: c in start && view.centers[o] == Plus(v.pixel(c), shift))
      || view.centers[o] !in Cells(Primary(OnScreen(v, shift, Stops(k, cells))))
  }

  lemma {:induction false} AllRenderable(view: S.View, ids: seq<S.Id>)
    requires forall i :: 0 <= i < |ids| ==> ids[i] in view.centers
    ensures S.Renderable(view, ids) == ids
  {
    if ids != [] {
      AllRenderable(view, ids[..|ids| - 1]);
      assert ids == ids[..|ids| - 1] + [ids[|ids| - 1]];
    }
  }

  lemma ShownPoints(view: S.View, d: S.Destination, v: Canvas, shift: Cell, k: Link, cells: seq<Cell>)
    requires ShowsChain(view, d, v, shift, k, cells)
    ensures S.Drawable(view, d) && S.ChainNodes(view, d) == [view.you] + d.relayStages + [d.id]
    ensures S.Stages(view, d) == (set s | s in d.relayStages) && S.Stages(view, d) * view.edge == {}
    ensures forall n :: n in S.ChainNodes(view, d) ==> n in view.centers
    ensures S.Points(view, S.ChainNodes(view, d)) == OnScreen(v, shift, Stops(k, cells))
  {
    AllRenderable(view, d.relayStages);
    S.ChainIsPlaced(view, d);
    var nodes, path := S.ChainNodes(view, d), Stops(k, cells);
    assert |nodes| == |path|;
    forall i | 0 <= i < |nodes| ensures view.centers[nodes[i]] == Plus(v.pixel(path[i]), shift) {
      if 0 < i < |nodes| - 1 {
        assert nodes[i] == d.relayStages[i - 1] && path[i] == cells[i - 1];
      }
    }
  }

  lemma HopMissesStart(v: Canvas, k: Link, start: set<Cell>, cells: seq<Cell>, i: nat)
    requires cells != [] && RunsClear(v, k, start, cells) && i <= |cells|
    ensures Hopped(v, k, cells, i) !! Pixels(v, start)
  {
    if i < |cells| {
      assert EntryIsClear(v, k, start, cells, i);
    }
  }

  lemma LegMissesTaken(v: Canvas, rowScale: int, columnScale: int, shift: Cell, k: Link, start: set<Cell>,
                       cells: seq<Cell>, i: nat, c: Cell)
    requires DrawnAt(v, rowScale, columnScale) && cells != [] && RunsClear(v, k, start, cells)
    requires i <= |cells| && c in start
    ensures Plus(v.pixel(c), shift) !in Leg(OnScreen(v, shift, Stops(k, cells)), i)
  {
    LegIsSegment(v, rowScale, columnScale, shift, Stops(k, cells), i, Plus(v.pixel(c), shift));
    StopsAre(v, k, cells, i);
    HopMissesStart(v, k, start, cells, i);
    assert v.pixel(c) in Pixels(v, start);
    assert Minus(Plus(v.pixel(c), shift), shift) == v.pixel(c);
  }

  lemma LegsMissObstacles(view: S.View, d: S.Destination, v: Canvas, rowScale: int, columnScale: int, shift: Cell,
                          k: Link, start: set<Cell>, cells: seq<Cell>, points: seq<Cell>)
    requires DrawnAt(v, rowScale, columnScale) && cells != [] && RunsClear(v, k, start, cells)
    requires OthersKeepOff(view, d, v, shift, k, start, cells) && points == OnScreen(v, shift, Stops(k, cells))
    ensures LegsMiss(points, S.Obstacles(view, d))
  {
    forall i | 0 <= i < |points| - 1 ensures Leg(points, i) !! S.Obstacles(view, d) {
      forall o | o in view.centers && o !in S.Members(view, d) ensures view.centers[o] !in Leg(points, i) {
        PrimaryCells(points, view.centers[o]);
        if c :| c in start && view.centers[o] == Plus(v.pixel(c), shift) {
          LegMissesTaken(v, rowScale, columnScale, shift, k, start, cells, i, c);
        }
      }
    }
  }

  /** A chain that never falls back, with nobody new on its pixels, is drawn through its stages exactly when its last
      turn is clear, and then every segment in the primary order. */
  lemma ChainIsDrawnExactly(view: S.View, d: S.Destination, v: Canvas, rowScale: int, columnScale: int, shift: Cell,
                            k: Link, start: set<Cell>, cells: seq<Cell>)
    requires DrawnAt(v, rowScale, columnScale) && cells != [] && RunsClear(v, k, start, cells)
    requires ShowsChain(view, d, v, shift, k, cells) && OthersKeepOff(view, d, v, shift, k, start, cells)
    ensures S.Drawable(view, d) && (!S.Direct(view, d) <==> AllSegmentsClear(v, k, start, cells))
    ensures !S.Direct(view, d) ==> S.Drawn(view, d) == Primary(OnScreen(v, shift, Stops(k, cells)))
  {
    var points := OnScreen(v, shift, Stops(k, cells));
    ShownPoints(view, d, v, shift, k, cells);
    LegsMissObstacles(view, d, v, rowScale, columnScale, shift, k, start, cells, points);
    ClearPathIsPrimary(points, S.Obstacles(view, d));
    S.RepeatsExact(Primary(points));
    PrimaryRepeatsExactly(points);
    ChainLegsApart(v, rowScale, columnScale, shift, k, start, cells, points);
  }

  /** A stage that only one destination lists is connected exactly when that one is not drawn directly. */
  lemma OwnStageConnected(view: S.View, ds: seq<S.Destination>, d: S.Destination, stage: S.Id)
    requires view.you in view.centers && d in ds && S.Drawable(view, d) && stage in S.Stages(view, d)
    requires forall e :: e in ds && stage in e.relayStages ==> e == d
    ensures stage in S.SceneOf(view, ds).connected <==> !S.Direct(view, d)
  {
    S.ConnectedExactly(view, ds, stage);
    S.StagesBetween(view, d, stage);
    if S.DrawnThrough(view, ds, stage) {
      var e :| e in ds && S.Drawable(view, e) && e.explicitForward.None? && stage in S.Between(view, e);
      S.StagesBetween(view, e, stage);
    }
  }

  // ----- A whole board

  lemma {:induction false} PositionsAreTaken(v: Canvas, placed: map<NodeId, Cell>, you: NodeId, hops: seq<Hop>)
    requires you in placed
    ensures var b := BuildTo(v, placed, you, hops);
      placed.Values <= b.occupied && forall s :: s in b.positions ==> b.positions[s] in b.occupied
  {
    if hops != [] {
      var n := |hops| - 1;
      PositionsAreTaken(v, placed, you, hops[..n]);
      var b := BuildTo(v, placed, you, hops[..n]);
      if HasChain(placed, hops[n]) {
        RecordExact(b, hops[n].client, ChainOf(v, placed, you, hops[n], b.occupied));
      }
    }
  }

  lemma EarlierIsWanted(placed: map<NodeId, Cell>, ordered: seq<Hop>, n: nat, s: Stage)
    requires n <= |ordered| && Wanted(placed, ordered, s)
    requires forall m :: n <= m < |ordered| ==> ordered[m].client != s.client
    ensures Wanted(placed, ordered[..n], s)
  {
    var h :| h in ordered && HasChain(placed, h) && h.client == s.client && 1 <= s.index <= h.count;
    var m :| 0 <= m < |ordered| && ordered[m] == h;
    assert ordered[..n][m] == h;
  }

  /** The stages of earlier clients sit on cells taken before the n-th client's turn. */
  lemma EarlierStageIsTaken(v: Canvas, placed: map<NodeId, Cell>, you: NodeId, ordered: seq<Hop>, n: nat, s: Stage)
    requires you in placed && DistinctClients(ordered) && n <= |ordered|
    requires s in BuildTo(v, placed, you, ordered).positions
    requires forall m :: n <= m < |ordered| ==> ordered[m].client != s.client
    ensures BuildTo(v, placed, you, ordered).positions[s] in TakenBefore(v, placed, you, ordered, n)
  {
    BuiltStages(v, placed, you, ordered);
    EarlierIsWanted(placed, ordered, n, s);
    BuiltStages(v, placed, you, ordered[..n]);
    ChainIsKept(v, placed, you, ordered, n, BuildTo(v, placed, you, ordered), s);
    PositionsAreTaken(v, placed, you, ordered[..n]);
  }

  /** The view holds the real nodes and the stages, under their names, and nobody else; whoever is not clipped is where
      the canvas has it, all moved by the same shift. */
  ghost predicate ShowsBoard(view: S.View, v: Canvas, shift: Cell, placed: map<NodeId, Cell>,
                             positions: map<Stage, Cell>, name: Stage -> S.Id) {
    && (forall n :: n in placed ==> n in view.centers)
    && (forall s :: s in positions ==> name(s) in view.centers)
    && (forall o :: o in view.centers ==> o in placed || exists s :: s in positions && name(s) == o)
    && (forall n :: n in placed && n !in view.edge ==> view.centers[n] == Plus(v.pixel(placed[n]), shift))
    && (forall s :: s in positions && name(s) !in view.edge ==>
          view.centers[name(s)] == Plus(v.pixel(positions[s]), shift))
  }

  /** The destination of a client with a chain. */
  function DestinationOf(h: Hop, name: Stage -> S.Id): S.Destination
    requires h.count >= 0
  {
    S.Destination(h.client, false, None, seq(h.count, i requires 0 <= i < h.count => name(Stage(h.client, i + 1))))
  }

  /** None of the chain's own nodes is clipped. */
  ghost predicate ChainUnclipped(view: S.View, h: Hop, name: Stage -> S.Id) {
    && view.you !in view.edge && h.client !in view.edge
    && forall i :: 1 <= i <= h.count ==> name(Stage(h.client, i)) !in view.edge
  }

  /** Clipped nodes and later clients' stages stay off the pixels of the n-th client's chain. */
  ghost predicate LateOnesKeepOff(view: S.View, ordered: seq<Hop>, n: nat, name: Stage -> S.Id, pixels: set<Cell>)
    requires n < |ordered|
  {
    && (forall o :: o in view.centers && o in view.edge ==> view.centers[o] !in pixels)
    && (forall m, i :: n < m < |ordered| && name(Stage(ordered[m].client, i)) in view.centers ==>
          view.centers[name(Stage(ordered[m].client, i))] !in pixels)
  }

  lemma OwnStageIsMember(view: S.View, h: Hop, name: Stage -> S.Id, i: nat)
    requires 1 <= i <= h.count && name(Stage(h.client, i)) in view.centers && name(Stage(h.client, i)) != view.you
    ensures name(Stage(h.client, i)) in S.Members(view, DestinationOf(h, name))
  {
    var d := DestinationOf(h, name);
    S.RenderableExact(view, d.relayStages);
    assert d.relayStages[i - 1] == name(Stage(h.client, i));
  }

  /** Everybody outside the chain either was placed before it or keeps off it. */
  lemma OneKeepsOff(view: S.View, v: Canvas, shift: Cell, placed: map<NodeId, Cell>, you: NodeId, ordered: seq<Hop>,
                    n: nat, name: Stage -> S.Id, start: set<Cell>, pixels: set<Cell>, o: S.Id)
    requires you in placed && DistinctClients(ordered) && n < |ordered| && view.you == you && ordered[n].count >= 0
    requires ShowsBoard(view, v, shift, placed, BuildTo(v, placed, you, ordered).positions, name)
    requires start == TakenBefore(v, placed, you, ordered, n) && LateOnesKeepOff(view, ordered, n, name, pixels)
    requires o in view.centers && o !in S.Members(view, DestinationOf(ordered[n], name))
    ensures (exists c :: c in start && view.centers[o] == Plus(v.pixel(c), shift)) || view.centers[o] !in pixels
  {
    var positions := BuildTo(v, placed, you, ordered).positions;
    PositionsAreTaken(v, placed, you, ordered[..n]);
    if o !in view.edge {
      if o in placed {
        assert placed[o] in placed.Values;
      } else {
        var s :| s in positions && name(s) == o;
        StageIsEarlyOrLate(v, placed, you, ordered, n, s);
        if s.client == ordered[n].client {
          OwnStageIsMember(view, ordered[n], name, s.index);
        } else if m :| n < m < |ordered| && ordered[m].client == s.client {
          assert name(Stage(ordered[m].client, s.index)) == o;
        } else {
          EarlierStageIsTaken(v, placed, you, ordered, n, s);
        }
      }
    }
  }

  lemma StageIsEarlyOrLate(v: Canvas, placed: map<NodeId, Cell>, you: NodeId, ordered: seq<Hop>, n: nat, s: Stage)
    requires you in placed && DistinctClients(ordered) && n < |ordered|
    requires s in BuildTo(v, placed, you, ordered).positions
    ensures s.client == ordered[n].client ==> 1 <= s.index <= ordered[n].count
  {
    BuiltStages(v, placed, you, ordered);
    var h :| h in ordered && HasChain(placed, h) && h.client == s.client && 1 <= s.index <= h.count;
    var m :| 0 <= m < |ordered| && ordered[m] == h;
  }

  lemma BoardShowsChain(view: S.View, v: Canvas, shift: Cell, placed: map<NodeId, Cell>, you: NodeId,
                        positions: map<Stage, Cell>, h: Hop, name: Stage -> S.Id)
    requires you in placed && HasChain(placed, h) && view.you == you
    requires ShowsBoard(view, v, shift, placed, positions, name) && ChainUnclipped(view, h, name)
    requires forall i :: 1 <= i <= h.count ==> Stage(h.client, i) in positions
    ensures ShowsChain(view, DestinationOf(h, name), v, shift, LinkTo(v, placed[you], placed[h.client], h.count),
                       StageCells(positions, h))
  {
    var d := DestinationOf(h, name);
    forall i | 0 <= i < h.count
      ensures d.relayStages[i] in view.centers && d.relayStages[i] !in view.edge
      ensures view.centers[d.relayStages[i]] == Plus(v.pixel(StageCells(positions, h)[i]), shift)
    {
      assert d.relayStages[i] == name(Stage(h.client, i + 1));
    }
  }

  lemma BoardKeepsOff(view: S.View, v: Canvas, shift: Cell, placed: map<NodeId, Cell>, you: NodeId, ordered: seq<Hop>,
                      n: nat, name: Stage -> S.Id, k: Link, start: set<Cell>, cells: seq<Cell>)
    requires you in placed && DistinctClients(ordered) && n < |ordered| && view.you == you && ordered[n].count >= 0
    requires ShowsBoard(view, v, shift, placed, BuildTo(v, placed, you, ordered).positions, name)
    requires start == TakenBefore(v, placed, you, ordered, n)
    requires LateOnesKeepOff(view, ordered, n, name, Cells(Primary(OnScreen(v, shift, Stops(k, cells)))))
    ensures OthersKeepOff(view, DestinationOf(ordered[n], name), v, shift, k, start, cells)
  {
    var pixels := Cells(Primary(OnScreen(v, shift, Stops(k, cells))));
    forall o | o in view.centers && o !in S.Members(view, DestinationOf(ordered[n], name))
      ensures (exists c :: c in start && view.centers[o] == Plus(v.pixel(c), shift)) || view.centers[o] !in pixels
    {
      OneKeepsOff(view, v, shift, placed, you, ordered, n, name, start, pixels, o);
    }
  }

  lemma BoardChainRunsClear(v: Canvas, rowScale: int, columnScale: int, placed: map<NodeId, Cell>, you: NodeId,
                            ordered: seq<Hop>, n: nat, k: Link, start: set<Cell>, positions: map<Stage, Cell>)
    requires DrawnAt(v, rowScale, columnScale) && rowScale >= 1 && columnScale >= 1 && v.rows >= 1 && v.columns >= 1
    requires DistinctClients(ordered) && you in placed && n < |ordered| && HasChain(placed, ordered[n])
    requires k == LinkTo(v, placed[you], placed[ordered[n].client], ordered[n].count)
    requires start == TakenBefore(v, placed, you, ordered, n)
    requires positions == BuildTo(v, placed, you, ordered).positions && SuitableUpTo(v, k, start, ordered[n].count)
    ensures forall i :: 1 <= i <= ordered[n].count ==> Stage(ordered[n].client, i) in positions
    ensures var cells := StageCells(positions, ordered[n]);
      cells != [] && RunsClear(v, k, start, cells) &&
      (AllSegmentsClear(v, k, start, cells) <==> !LastTurnRetraces(v, k, cells))
  {
    ChainOfClient(v, placed, you, ordered, n);
    ClientChainIsClearExactly(v, rowScale, columnScale, placed, you, ordered, n);
  }

  /** No other destination lists a stage of this one. */
  ghost predicate StagesAreOwn(ds: seq<S.Destination>, d: S.Destination) {
    forall e, s :: e in ds && s in e.relayStages && s in d.relayStages ==> e == d
  }

  /** A chain on the screen, and the stages reported connected. */
  lemma ChainIsConnectedExactly(view: S.View, ds: seq<S.Destination>, d: S.Destination, v: Canvas, rowScale: int,
                                columnScale: int, shift: Cell, k: Link, start: set<Cell>, cells: seq<Cell>)
    requires DrawnAt(v, rowScale, columnScale) && cells != [] && RunsClear(v, k, start, cells)
    requires ShowsChain(view, d, v, shift, k, cells) && OthersKeepOff(view, d, v, shift, k, start, cells)
    requires d in ds && StagesAreOwn(ds, d)
    ensures S.Drawable(view, d) && (!S.Direct(view, d) <==> AllSegmentsClear(v, k, start, cells))
    ensures forall s :: s in d.relayStages ==>
              (s in S.SceneOf(view, ds).connected <==> AllSegmentsClear(v, k, start, cells))
  {
    ChainIsDrawnExactly(view, d, v, rowScale, columnScale, shift, k, start, cells);
    ShownPoints(view, d, v, shift, k, cells);
    forall s | s in d.relayStages
      ensures s in S.SceneOf(view, ds).connected <==> AllSegmentsClear(v, k, start, cells)
    {
      OwnStageConnected(view, ds, d, s);
    }
  }

  /** The whole way: stages placed by the search, drawn by the scene. With none of the chain's nodes clipped, a
      suitable cell for every stage, and neither a clipped node nor a later stage on the chain's pixels, the connector
      goes through the stages, and they are reported connected, exactly when the last turn is no retrace. */
  lemma BoardChainIsDrawnExactly(view: S.View, v: Canvas, rowScale: int, columnScale: int, shift: Cell,
                                 placed: map<NodeId, Cell>, you: NodeId, ordered: seq<Hop>, n: nat,
                                 name: Stage -> S.Id, ds: seq<S.Destination>, k: Link, start: set<Cell>,
                                 positions: map<Stage, Cell>, d: S.Destination)
    requires DrawnAt(v, rowScale, columnScale) && rowScale >= 1 && columnScale >= 1 && v.rows >= 1 && v.columns >= 1
    requires DistinctClients(ordered) && you in placed && n < |ordered| && HasChain(placed, ordered[n])
    requires k == LinkTo(v, placed[you], placed[ordered[n].client], ordered[n].count)
    requires start == TakenBefore(v, placed, you, ordered, n)
    requires positions == BuildTo(v, placed, you, ordered).positions && SuitableUpTo(v, k, start, ordered[n].count)
    requires view.you == you && ShowsBoard(view, v, shift, placed, positions, name)
    requires ChainUnclipped(view, ordered[n], name)
    requires d == DestinationOf(ordered[n], name) && d in ds && StagesAreOwn(ds, d)
    ensures forall i :: 1 <= i <= ordered[n].count ==> Stage(ordered[n].client, i) in positions
    ensures S.Drawable(view, d)
    ensures var cells := StageCells(positions, ordered[n]);
      cells != [] &&
      (LateOnesKeepOff(view, ordered, n, name, Cells(Primary(OnScreen(v, shift, Stops(k, cells))))) ==>
         && (!S.Direct(view, d) <==> !LastTurnRetraces(v, k, cells))
         && (forall s :: s in d.relayStages ==>
               (s in S.SceneOf(view, ds).connected <==> !LastTurnRetraces(v, k, cells))))
  {
    BoardChainRunsClear(v, rowScale, columnScale, placed, you, ordered, n, k, start, positions);
    BoardShowsChain(view, v, shift, placed, you, positions, ordered[n], name);
    var cells := StageCells(positions, ordered[n]);
    ShownPoints(view, d, v, shift, k, cells);
    if LateOnesKeepOff(view, ordered, n, name, Cells(Primary(OnScreen(v, shift, Stops(k, cells))))) {
      BoardKeepsOff(view, v, shift, placed, you, ordered, n, name, k, start, cells);
      ChainIsConnectedExactly(view, ds, d, v, rowScale, columnScale, shift, k, start, cells);
    }
  }
}
