/** What one render shows of each destination: its strokes in ink, and its chain on record. */
module ScenePaint {
  import opened Common
  import opened Sorting
  import opened Grid
  import opened Connector
  import opened Scene

  // ----- Strokes

  /** The selected node is on the way to the destination, or the destination itself. */
  ghost predicate Leads(v: View, d: Destination) {
    v.selected != v.you && v.selected in ChainNodes(v, d)
  }

  /** The stroke `m` as it is painted: in the accent on the way to the selected node and dim elsewhere; straight strokes
      to a stale destination are dashed unless they are accented; corners never are. */
  ghost predicate Inked(p: Painted, m: Mark, v: View, d: Destination) {
    && p.at == m.at
    && p.color == (if Leads(v, d) then v.accent else v.dim)
    && var dashed := d.isStale && !Leads(v, d);
       if dashed && m.glyph == HORIZONTAL then p.glyph == DASHED_HORIZONTAL
       else if dashed && m.glyph == VERTICAL then p.glyph == DASHED_VERTICAL
       else p.glyph == m.glyph
  }

  lemma {:induction false} SceneGrows(v: View, ds: seq<Destination>, k: nat)
    requires v.you in v.centers && k <= |ds|
    ensures SceneOf(v, ds[..k]).ordinary <= SceneOf(v, ds).ordinary
    ensures SceneOf(v, ds[..k]).selected <= SceneOf(v, ds).selected
  {
    if k < |ds| {
      var n := |ds| - 1;
      SceneGrows(v, ds[..n], k);
      assert ds[..n][..k] == ds[..k];
    } else {
      assert ds[..k] == ds;
    }
  }

  lemma PaintIsInked(v: View, d: Destination)
    requires v.you in v.centers && Drawable(v, d)
    ensures |Paint(v, d)| == |Drawn(v, d)|
    ensures forall i :: 0 <= i < |Paint(v, d)| ==> Inked(Paint(v, d)[i], Drawn(v, d)[i], v, d)
  {
    assert Selected(v, d) <==> Leads(v, d);
    forall i | 0 <= i < |Paint(v, d)| ensures Inked(Paint(v, d)[i], Drawn(v, d)[i], v, d) {
      InkOf(v, d, Drawn(v, d)[i]);
    }
  }

  lemma InkOf(v: View, d: Destination, m: Mark)
    ensures Inked(PaintMark(v, d, m), m, v, d)
  {
    assert Selected(v, d) <==> Leads(v, d);
  }

  /** From `start` on, `cells` holds the strokes of `marks` in their order. */
  ghost predicate InkedFrom(cells: seq<Painted>, start: nat, marks: seq<Mark>, v: View, d: Destination) {
    && start + |marks| <= |cells|
    && forall i :: 0 <= i < |marks| ==> Inked(cells[start + i], marks[i], v, d)
  }

  lemma PieceIsInked(cells: seq<Painted>, before: seq<Painted>, piece: seq<Painted>, marks: seq<Mark>, v: View,
                     d: Destination)
    requires before + piece <= cells && |piece| == |marks|
    requires forall i :: 0 <= i < |piece| ==> Inked(piece[i], marks[i], v, d)
    ensures InkedFrom(cells, |before|, marks, v, d)
  {
    forall i | 0 <= i < |marks| ensures cells[|before| + i] == piece[i] {
      assert (before + piece)[|before| + i] == piece[i];
    }
  }

  lemma PaintIsAdded(v: View, ds: seq<Destination>, k: nat)
    requires v.you in v.centers && k < |ds| && Drawable(v, ds[k])
    ensures if Leads(v, ds[k])
            then SceneOf(v, ds[..k]).selected + Paint(v, ds[k]) <= SceneOf(v, ds).selected
            else SceneOf(v, ds[..k]).ordinary + Paint(v, ds[k]) <= SceneOf(v, ds).ordinary
  {
    assert ds[..k + 1][..k] == ds[..k];
    assert SceneOf(v, ds[..k + 1]) == AddDestination(SceneOf(v, ds[..k]), v, ds[k]);
    SceneGrows(v, ds, k + 1);
  }

  /** Every destination's strokes are painted in one piece, in their order, among the cells painted last when the
      selected node is on its chain and among the others when not. */
  lemma StrokesAreInked(v: View, ds: seq<Destination>, k: nat) returns (start: nat)
    requires v.you in v.centers && k < |ds| && Drawable(v, ds[k])
    ensures InkedFrom(if Leads(v, ds[k]) then SceneOf(v, ds).selected else SceneOf(v, ds).ordinary, start,
                      Drawn(v, ds[k]), v, ds[k])
  {
    var d := ds[k];
    PaintIsAdded(v, ds, k);
    PaintIsInked(v, d);
    var before := SceneOf(v, ds[..k]);
    start := if Leads(v, d) then |before.selected| else |before.ordinary|;
    if Leads(v, d) {
      PieceIsInked(SceneOf(v, ds).selected, before.selected, Paint(v, d), Drawn(v, d), v, d);
    } else {
      PieceIsInked(SceneOf(v, ds).ordinary, before.ordinary, Paint(v, d), Drawn(v, d), v, d);
    }
  }

  // ----- Which route is drawn

  /** A stage on the way to the destination has been clipped to the edge of the viewport. */
  ghost predicate StageClipped(v: View, d: Destination) {
    d.explicitForward.None? && exists s :: s in d.relayStages && s in v.centers && s in v.edge
  }

  /** A destination is drawn through its chain unless a stage of it is clipped or the chain's route would visit a cell
      twice; then it is drawn straight from YOU. */
  lemma ChainIsGivenUpExactly(v: View, d: Destination)
    requires v.you in v.centers && Drawable(v, d)
    ensures forall n :: n in ChainNodes(v, d) ==> n in v.centers
    ensures Waypoints(v, d) ==
      if StageClipped(v, d) || !RepeatFree(RouteChain(Points(v, ChainNodes(v, d)), Obstacles(v, d)))
      then [v.you, d.id] else ChainNodes(v, d)
  {
    ChainIsPlaced(v, d);
    RepeatsExact(RouteChain(Points(v, ChainNodes(v, d)), Obstacles(v, d)));
    ClippedStages(v, d);
  }

  lemma ClippedStages(v: View, d: Destination)
    ensures StageClipped(v, d) <==> Stages(v, d) * v.edge != {}
  {
    RenderableExact(v, d.relayStages);
    if StageClipped(v, d) {
      var s :| s in d.relayStages && s in v.centers && s in v.edge;
      assert s in Stages(v, d) * v.edge;
    }
    if Stages(v, d) * v.edge != {} {
      var s :| s in Stages(v, d) * v.edge;
    }
  }

  // ----- Chains

  ghost function PlacedIn(v: View): Id -> bool {
    id => id in v.centers
  }

  ghost function DrawableIn(v: View): Destination -> bool {
    d => Drawable(v, d)
  }

  lemma {:induction false} RenderablePicks(v: View, ids: seq<Id>)
    ensures Picks(ids, Renderable(v, ids), PlacedIn(v))
  {
    if ids == [] {
      PicksNothing(PlacedIn(v));
    } else {
      var front := ids[..|ids| - 1];
      RenderablePicks(v, front);
      PicksMore(ids, Renderable(v, front), PlacedIn(v));
      RenderableNext(v, ids, front, ids[|ids| - 1]);
    }
  }

  lemma RenderableNext(v: View, ids: seq<Id>, front: seq<Id>, last: Id)
    requires ids != [] && front == ids[..|ids| - 1] && last == ids[|ids| - 1]
    ensures Renderable(v, ids) == if PlacedIn(v)(last) then Renderable(v, front) + [last] else Renderable(v, front)
  {
  }

  /** The chain on record for a destination: from YOU to it through the relays its route names, or through its stages
      that have a place on the board. */
  ghost predicate Records(c: Chain, v: View, d: Destination) {
    && c.destination == d.id && c.stale == d.isStale && c.explicit == d.explicitForward.Some?
    && |c.nodes| >= 2 && c.nodes[0] == v.you && c.nodes[|c.nodes| - 1] == d.id
    && var between := c.nodes[1..|c.nodes| - 1];
       if d.explicitForward.Some? then between == d.explicitForward.value
       else Picks(d.relayStages, between, PlacedIn(v))
  }

  lemma ChainRecords(v: View, d: Destination)
    ensures Records(Chain(d.id, ChainNodes(v, d), d.explicitForward.Some?, d.isStale), v, d)
  {
    RenderablePicks(v, d.relayStages);
    var between := if d.explicitForward.Some? then d.explicitForward.value else Renderable(v, d.relayStages);
    assert ChainNodes(v, d)[1..|ChainNodes(v, d)| - 1] == between;
  }

  /** A destination is drawn exactly when it and every relay its route names have a place on the board. */
  lemma DrawableExactly(v: View, d: Destination)
    requires v.you in v.centers
    ensures Drawable(v, d) <==> forall n :: n in ChainNodes(v, d) ==> n in v.centers
  {
    RenderableExact(v, d.relayStages);
    var between := if d.explicitForward.Some? then d.explicitForward.value else Renderable(v, d.relayStages);
    assert forall n :: n in ChainNodes(v, d) <==> n == v.you || n in between || n == d.id;
  }

  ghost predicate RecordsAll(chains: seq<Chain>, v: View, drawn: seq<Destination>) {
    |chains| == |drawn| && forall i :: 0 <= i < |chains| ==> Records(chains[i], v, drawn[i])
  }

  lemma RecordsMore(v: View, chains: seq<Chain>, drawn: seq<Destination>, c: Chain, d: Destination)
    requires RecordsAll(chains, v, drawn) && Records(c, v, d)
    ensures RecordsAll(chains + [c], v, drawn + [d])
  {
    forall i | 0 <= i < |chains + [c]| ensures Records((chains + [c])[i], v, (drawn + [d])[i]) {
      assert i < |chains| ==> Records(chains[i], v, drawn[i]);
    }
  }

  lemma ChainsNext(v: View, ds: seq<Destination>) returns (c: Chain)
    requires v.you in v.centers && ds != []
    ensures var d := ds[|ds| - 1]; var front := SceneOf(v, ds[..|ds| - 1]).chains;
      Records(c, v, d) && SceneOf(v, ds).chains == if Drawable(v, d) then front + [c] else front
  {
    var d := ds[|ds| - 1];
    c := Chain(d.id, ChainNodes(v, d), d.explicitForward.Some?, d.isStale);
    ChainRecords(v, d);
  }

  /** One chain is recorded for every destination drawn, in the order given. */
  lemma {:induction false} ChainsAreRecorded(v: View, ds: seq<Destination>) returns (drawn: seq<Destination>)
    requires v.you in v.centers
    ensures Picks(ds, drawn, DrawableIn(v)) && RecordsAll(SceneOf(v, ds).chains, v, drawn)
  {
    if ds == [] {
      drawn := [];
      PicksNothing(DrawableIn(v));
    } else {
      var front, last := ds[..|ds| - 1], ds[|ds| - 1];
      drawn := ChainsAreRecorded(v, front);
      PicksMore(ds, drawn, DrawableIn(v));
      var c := ChainsNext(v, ds);
      if DrawableIn(v)(last) {
        RecordsMore(v, SceneOf(v, front).chains, drawn, c, last);
        drawn := drawn + [last];
      }
    }
  }
}
