/** build_connector_scene: which connectors one render draws, through which nodes, in which colour. */
module Scene {
  import opened Common
  import opened Sorting
  import opened Grid
  import opened Connector

  /** A node or relay-stage ID. */
  type Id = nat
  type Color = string

  datatype Destination = Destination(id: Id, isStale: bool, explicitForward: Option<seq<Id>>, relayStages: seq<Id>)

  datatype Chain = Chain(destination: Id, nodes: seq<Id>, explicit: bool, stale: bool)

  datatype Painted = Painted(at: Cell, glyph: Glyph, color: Color)

  /** Everything the painting depends on besides the destinations. */
  datatype View = View(you: Id, centers: map<Id, Cell>, selected: Id, edge: set<Id>, accent: Color, dim: Color)

  function Renderable(v: View, ids: seq<Id>): seq<Id> {
    if ids == [] then []
    else Renderable(v, ids[..|ids| - 1]) + (if ids[|ids| - 1] in v.centers then [ids[|ids| - 1]] else [])
  }

  /** A destination whose position, and explicit relays if any, are all on the board. */
  predicate Drawable(v: View, d: Destination) {
    && d.id in v.centers
    && (d.explicitForward.Some? ==> forall r :: r in d.explicitForward.value ==> r in v.centers)
  }

  /** route_chain_node_ids for the stages that can be rendered. */
  function ChainNodes(v: View, d: Destination): seq<Id> {
    [v.you] + (if d.explicitForward.Some? then d.explicitForward.value else Renderable(v, d.relayStages)) + [d.id]
  }

  function Stages(v: View, d: Destination): set<Id> {
    if d.explicitForward.Some? then {} else set s | s in Renderable(v, d.relayStages)
  }

  function Members(v: View, d: Destination): set<Id> {
    (set n | n in ChainNodes(v, d)) - {v.you}
  }

  function Obstacles(v: View, d: Destination): set<Cell> {
    set n | n in v.centers && n !in Members(v, d) :: v.centers[n]
  }

  /** YOU is no member of the chain, so a path does treat its own origin as an obstacle. */
  lemma OriginIsAnObstacle(v: View, d: Destination)
    requires v.you in v.centers
    ensures v.centers[v.you] in Obstacles(v, d)
  {
    assert v.you !in Members(v, d);
  }

  lemma {:induction false} RenderableExact(v: View, ids: seq<Id>)
    ensures forall s :: s in Renderable(v, ids) <==> s in ids && s in v.centers
  {
    if ids != [] {
      RenderableExact(v, ids[..|ids| - 1]);
      assert ids == ids[..|ids| - 1] + [ids[|ids| - 1]];
    }
  }

  lemma ChainIsPlaced(v: View, d: Destination)
    requires v.you in v.centers && Drawable(v, d)
    ensures forall n :: n in ChainNodes(v, d) ==> n in v.centers
  {
    RenderableExact(v, d.relayStages);
  }

  function Points(v: View, ids: seq<Id>): seq<Cell>
    requires forall n :: n in ids ==> n in v.centers
  {
    seq(|ids|, i requires 0 <= i < |ids| => v.centers[ids[i]])
  }

  predicate Repeats(marks: seq<Mark>) {
    |Cells(marks)| != |marks|
  }

  /** The chain is given up for a straight YOU-to-destination line: a stage is clipped to the edge of
      the viewport, or the chain's own cells repeat. */
  predicate Direct(v: View, d: Destination)
    requires v.you in v.centers && Drawable(v, d)
  {
    ChainIsPlaced(v, d);
    || Stages(v, d) * v.edge != {}
    || Repeats(RouteChain(Points(v, ChainNodes(v, d)), Obstacles(v, d)))
  }

  /** The nodes the connector is really drawn through. */
  function Waypoints(v: View, d: Destination): seq<Id>
    requires v.you in v.centers && Drawable(v, d)
  {
    if Direct(v, d) then [v.you, d.id] else ChainNodes(v, d)
  }

  function Drawn(v: View, d: Destination): seq<Mark>
    requires v.you in v.centers && Drawable(v, d)
  {
    ChainIsPlaced(v, d);
    RouteChain(Points(v, Waypoints(v, d)), Obstacles(v, d))
  }

  predicate Selected(v: View, d: Destination) {
    v.selected in Members(v, d)
  }

  function DashedGlyph(g: Glyph): (r: Glyph)
    ensures Strokes(r) == Strokes(g)
  {
    match g
    case HORIZONTAL => DASHED_HORIZONTAL
    case VERTICAL => DASHED_VERTICAL
    case _ => g
  }

  function PaintMark(v: View, d: Destination, m: Mark): Painted {
    Painted(m.at,
            if !Selected(v, d) && d.isStale then DashedGlyph(m.glyph) else m.glyph,
            if Selected(v, d) then v.accent else v.dim)
  }

  function Paint(v: View, d: Destination): seq<Painted>
    requires v.you in v.centers && Drawable(v, d)
  {
    var marks := Drawn(v, d);
    seq(|marks|, i requires 0 <= i < |marks| => PaintMark(v, d, marks[i]))
  }

  datatype Scene = Scene(ordinary: seq<Painted>, selected: seq<Painted>, chains: seq<Chain>, connected: set<Id>) {
    /** Drawing order: the selected node's routes last. */
    function Cells(): seq<Painted> {
      ordinary + selected
    }
  }

  const EMPTY := Scene([], [], [], {})

  function AddDestination(s: Scene, v: View, d: Destination): Scene
    requires v.you in v.centers
  {
    if !Drawable(v, d) then s
    else
      Scene(
        if Selected(v, d) then s.ordinary else s.ordinary + Paint(v, d),
        if Selected(v, d) then s.selected + Paint(v, d) else s.selected,
        s.chains + [Chain(d.id, ChainNodes(v, d), d.explicitForward.Some?, d.isStale)],
        if Direct(v, d) then s.connected else s.connected + Stages(v, d))
  }

  function SceneOf(v: View, ds: seq<Destination>): Scene {
    if v.you !in v.centers || ds == [] then EMPTY
    else AddDestination(SceneOf(v, ds[..|ds| - 1]), v, ds[|ds| - 1])
  }

  method RouteDestination(v: View, d: Destination) returns (marks: seq<Mark>, direct: bool)
    requires v.you in v.centers && Drawable(v, d)
    ensures marks == Drawn(v, d) && direct == Direct(v, d)
  {
    ChainIsPlaced(v, d);
    var obstacles := Obstacles(v, d);
    var directPoints := [v.centers[v.you], v.centers[d.id]];
    assert directPoints == Points(v, [v.you, d.id]);
    direct := true;
    if Stages(v, d) * v.edge != {} {
      marks := RouteChainAvoiding(directPoints, obstacles);
    } else {
      marks := RouteChainAvoiding(Points(v, ChainNodes(v, d)), obstacles);
      if |Cells(marks)| != |marks| {
        marks := RouteChainAvoiding(directPoints, obstacles);
      } else {
        direct := false;
      }
    }
  }

  method PaintRoute(v: View, d: Destination, marks: seq<Mark>) returns (painted: seq<Painted>)
    ensures |painted| == |marks| && forall i :: 0 <= i < |marks| ==> painted[i] == PaintMark(v, d, marks[i])
  {
    painted := [];
    for i := 0 to |marks|
      invariant |painted| == i && forall j :: 0 <= j < i ==> painted[j] == PaintMark(v, d, marks[j])
    {
      var glyph := if !Selected(v, d) && d.isStale then DashedGlyph(marks[i].glyph) else marks[i].glyph;
      painted := painted + [Painted(marks[i].at, glyph, if Selected(v, d) then v.accent else v.dim)];
    }
  }

  /** One destination: its route, painted, goes to the ordinary or the selected cells. */
  method DrawDestination(before: Scene, v: View, d: Destination) returns (scene: Scene)
    requires v.you in v.centers && Drawable(v, d)
    ensures scene == AddDestination(before, v, d)
  {
    var marks, direct := RouteDestination(v, d);
    var painted := PaintRoute(v, d, marks);
    assert painted == Paint(v, d);
    scene := Scene(
      if Selected(v, d) then before.ordinary else before.ordinary + painted,
      if Selected(v, d) then before.selected + painted else before.selected,
      before.chains + [Chain(d.id, ChainNodes(v, d), d.explicitForward.Some?, d.isStale)],
      if direct then before.connected else before.connected + Stages(v, d));
  }

  method BuildConnectorScene(v: View, ds: seq<Destination>) returns (scene: Scene)
    ensures scene == SceneOf(v, ds)
  {
    if v.you !in v.centers {
      return EMPTY;
    }
    scene := EMPTY;
    for i := 0 to |ds|
      invariant scene == SceneOf(v, ds[..i])
    {
      assert ds[..i + 1][..i] == ds[..i];
      if Drawable(v, ds[i]) {
        scene := DrawDestination(scene, v, ds[i]);
      }
    }
    assert ds[..|ds|] == ds;
  }

  // ----- No drawn route repeats a cell

  lemma {:induction false} RepeatsExact(marks: seq<Mark>)
    ensures |Cells(marks)| <= |marks|
    ensures !Repeats(marks) <==> RepeatFree(marks)
  {
    if marks != [] {
      var n := |marks| - 1;
      var front, last := marks[..n], marks[n];
      assert marks == front + [last];
      RepeatsExact(front);
      assert Cells(marks) == Cells(front) + {last.at};
      if RepeatFree(marks) {
        assert last.at !in Cells(front);
      } else if RepeatFree(front) {
        assert last.at in Cells(front);
      }
    }
  }

  lemma DrawnRouteIsRepeatFree(v: View, d: Destination)
    requires v.you in v.centers && Drawable(v, d)
    ensures RepeatFree(Drawn(v, d))
  {
    ChainIsPlaced(v, d);
    if Direct(v, d) {
      var points := Points(v, [v.you, d.id]);
      assert points[..1] == [points[0]];
      assert RouteChain(points, Obstacles(v, d)) == RouteAvoiding(points[0], points[1], Obstacles(v, d));
      SegmentIsRepeatFree(points[0], points[1], Obstacles(v, d));
    } else {
      RepeatsExact(Drawn(v, d));
    }
  }

  // ----- A stage is connected exactly when its own destination is drawn through it

  /** The waypoints strictly between YOU and the destination. */
  function Between(v: View, d: Destination): seq<Id>
    requires v.you in v.centers && Drawable(v, d)
  {
    var w := Waypoints(v, d);
    w[1..|w| - 1]
  }

  ghost predicate DrawnThrough(v: View, ds: seq<Destination>, stage: Id)
    requires v.you in v.centers
  {
    exists d :: d in ds && Drawable(v, d) && d.explicitForward.None? && stage in Between(v, d)
  }

  lemma StagesBetween(v: View, d: Destination, stage: Id)
    requires v.you in v.centers && Drawable(v, d)
    ensures stage in Stages(v, d) && !Direct(v, d) <==> d.explicitForward.None? && stage in Between(v, d)
    ensures stage in Stages(v, d) ==> stage in d.relayStages
  {
    RenderableExact(v, d.relayStages);
    if d.explicitForward.None? && !Direct(v, d) {
      assert Between(v, d) == Renderable(v, d.relayStages);
    }
  }

  lemma {:induction false} ConnectedExactly(v: View, ds: seq<Destination>, stage: Id)
    requires v.you in v.centers
    ensures stage in SceneOf(v, ds).connected <==> DrawnThrough(v, ds, stage)
  {
    if ds != [] {
      var n := |ds| - 1;
      assert ds == ds[..n] + [ds[n]];
      ConnectedExactly(v, ds[..n], stage);
      if Drawable(v, ds[n]) {
        StagesBetween(v, ds[n], stage);
      }
      if DrawnThrough(v, ds[..n], stage) {
        var d :| d in ds[..n] && Drawable(v, d) && d.explicitForward.None? && stage in Between(v, d);
        assert d in ds;
      }
    }
  }

  /** The recorded chain is the path really drawn unless it was given up for the direct line. */
  lemma RecordedPathIsDrawn(v: View, d: Destination)
    requires v.you in v.centers && Drawable(v, d)
    ensures ChainNodes(v, d) == Waypoints(v, d) <==> !Direct(v, d) || |ChainNodes(v, d)| == 2
  {
    if |ChainNodes(v, d)| == 2 {
      assert ChainNodes(v, d) == [v.you, d.id];
    }
  }

  // ----- Painting in order, the last write wins

  function Overlay(cells: seq<Painted>): map<Cell, Painted> {
    if cells == [] then map[]
    else Overlay(cells[..|cells| - 1])[cells[|cells| - 1].at := cells[|cells| - 1]]
  }

  lemma {:induction false} OverlayLast(front: seq<Painted>, back: seq<Painted>, c: Cell)
    ensures c in Overlay(front + back) <==> exists m :: m in front + back && m.at == c
    ensures (exists m :: m in back && m.at == c) ==> c in Overlay(front + back) && Overlay(front + back)[c] in back
    ensures c in Overlay(front + back) ==> Overlay(front + back)[c] in front + back && Overlay(front + back)[c].at == c
  {
    var s := front + back;
    if s != [] {
      var n := |s| - 1;
      assert s == s[..n] + [s[n]];
      if back == [] {
        assert s == front && front[..n] + [] == s[..n];
        OverlayLast(front[..n], [], c);
      } else {
        assert s[..n] == front + back[..|back| - 1];
        assert back == back[..|back| - 1] + [s[n]];
        OverlayLast(front, back[..|back| - 1], c);
      }
    }
  }

  lemma {:induction false} PaintedCells(v: View, ds: seq<Destination>)
    requires v.you in v.centers
    ensures forall m :: m in SceneOf(v, ds).selected ==> m.color == v.accent
    ensures forall m :: m in SceneOf(v, ds).ordinary ==> m.color == v.dim
    ensures forall c :: (exists m :: m in SceneOf(v, ds).selected && m.at == c) <==> OnRoute(v, ds, c, true)
    ensures forall c :: (exists m :: m in SceneOf(v, ds).ordinary && m.at == c) <==> OnRoute(v, ds, c, false)
  {
    if ds != [] {
      var n := |ds| - 1;
      var d := ds[n];
      assert ds == ds[..n] + [d];
      PaintedCells(v, ds[..n]);
      forall c, chosen ensures OnRoute(v, ds, c, chosen) <==>
        OnRoute(v, ds[..n], c, chosen) || (Drawable(v, d) && Selected(v, d) == chosen && c in Cells(Drawn(v, d)))
      {
      }
      if Drawable(v, d) {
        PaintCells(v, d);
      }
    }
  }

  /** `c` is a cell of the drawn route of a destination whose chain does (or does not) hold the selected node. */
  ghost predicate OnRoute(v: View, ds: seq<Destination>, c: Cell, chosen: bool)
    requires v.you in v.centers
  {
    exists d :: d in ds && Drawable(v, d) && Selected(v, d) == chosen && c in Cells(Drawn(v, d))
  }

  lemma PaintCells(v: View, d: Destination)
    requires v.you in v.centers && Drawable(v, d)
    ensures forall m :: m in Paint(v, d) ==> m.color == if Selected(v, d) then v.accent else v.dim
    ensures forall c :: c in Cells(Drawn(v, d)) <==> exists m :: m in Paint(v, d) && m.at == c
  {
    var marks, painted := Drawn(v, d), Paint(v, d);
    forall c ensures c in Cells(marks) <==> exists m :: m in painted && m.at == c {
      if c in Cells(marks) {
        var i :| 0 <= i < |marks| && marks[i].at == c;
        assert painted[i] in painted && painted[i].at == c;
      }
      if m :| m in painted && m.at == c {
        var i :| 0 <= i < |painted| && painted[i] == m;
        assert marks[i] in marks;
      }
    }
  }

  /** After the whole scene is painted, every cell of a route through the selected node is accented,
      and (when the two colours differ) no other cell is. */
  lemma SelectedRouteStaysAccented(v: View, ds: seq<Destination>, c: Cell)
    requires v.you in v.centers
    ensures var overlay := Overlay(SceneOf(v, ds).Cells());
      && (c in overlay <==> OnRoute(v, ds, c, true) || OnRoute(v, ds, c, false))
      && (OnRoute(v, ds, c, true) ==> overlay[c].color == v.accent)
      && (c in overlay && !OnRoute(v, ds, c, true) ==> overlay[c].color == v.dim)
  {
    var scene := SceneOf(v, ds);
    PaintedCells(v, ds);
    OverlayLast(scene.ordinary, scene.selected, c);
    var overlay := Overlay(scene.Cells());
    if c in overlay && !OnRoute(v, ds, c, true) {
      assert overlay[c] !in scene.selected;
    }
  }
}
