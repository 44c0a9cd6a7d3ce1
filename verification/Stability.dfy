/** MESH layout stability: each layout is remembered and handed to the next one, and the farthest
    steps ever used only grow. When does a node that is already on the board stay put? */
module Stability {
  import opened Common
  import opened Sorting
  import opened Grid
  import opened Slots
  import opened SlotProperties
  import opened Stretch
  import opened Placement

  // ----- Remembered cells within one layout

  /** Remembered cells are apart, and the local node's is the origin. */
  ghost predicate HomesApart(memory: Memory, local: Option<Node>) {
    && (forall p, q :: p in memory && q in memory && p != q ==> memory[p].cell != memory[q].cell)
    && (local.Some? ==> local.value.id in memory && memory[local.value.id].cell == ORIGIN)
  }

  /** Every claimed cell is the remembered cell of somebody already placed. */
  ghost predicate OnlyHomes(occupied: set<Cell>, memory: Memory, placed: set<NodeId>) {
    forall c :: c in occupied ==> exists id :: id in placed && id in memory && memory[id].cell == c
  }

  function Home(memory: Memory, n: Node): Slot
    requires n.id in memory
  {
    Slot(n.id, memory[n.id].cell, n.region)
  }

  lemma HomeIsFree(occupied: set<Cell>, memory: Memory, placed: set<NodeId>, n: Node)
    requires forall p, q :: p in memory && q in memory && p != q ==> memory[p].cell != memory[q].cell
    requires OnlyHomes(occupied, memory, placed) && n.id in memory && n.id !in placed
    ensures memory[n.id].cell !in occupied
    ensures OnlyHomes(occupied + {memory[n.id].cell}, memory, placed + {n.id})
  {
    var more := placed + {n.id};
    forall c | c in occupied + {memory[n.id].cell}
      ensures exists id :: id in more && id in memory && memory[id].cell == c
    {
      if c in occupied {
        var id :| id in placed && id in memory && memory[id].cell == c;
        assert id in more;
      } else {
        assert n.id in more;
      }
    }
  }

  /** On a board that holds only remembered cells, every remembered member of a group gets its cell. */
  lemma {:induction false} GroupGoesHome(entries: seq<Node>, memory: Memory, occupied: set<Cell>, placed: set<NodeId>)
    requires forall p, q :: p in memory && q in memory && p != q ==> memory[p].cell != memory[q].cell
    requires OnlyHomes(occupied, memory, placed) && DistinctIds(entries) && Ids(entries) !! placed
    ensures var c := ClaimRemembered(entries, memory, occupied);
      && (forall n :: n in entries && Remembers(memory, n) ==> Home(memory, n) in c.slots)
      && ((forall n :: n in entries ==> Remembers(memory, n)) ==> c.unplaced == [])
      && OnlyHomes(c.occupied, memory, placed + Ids(entries))
  {
    if entries != [] {
      var k := |entries| - 1;
      var n := entries[k];
      assert entries == entries[..k] + [n];
      assert Ids(entries) == Ids(entries[..k]) + {n.id};
      GroupGoesHome(entries[..k], memory, occupied, placed);
      assert n.id !in placed + Ids(entries[..k]);
      assert (placed + Ids(entries[..k])) + {n.id} == placed + Ids(entries);
      var d := ClaimRemembered(entries[..k], memory, occupied);
      if Remembers(memory, n) {
        HomeIsFree(d.occupied, memory, placed + Ids(entries[..k]), n);
      } else {
        assert OnlyHomes(d.occupied, memory, placed + Ids(entries));
      }
    } else {
      assert placed + Ids(entries) == placed;
    }
  }

  lemma TurnGoesHome(d: Board, turn: nat, local: Option<Node>, remotes: seq<Node>, memory: Memory)
    requires turn < |PLACEMENT_ORDER| && Cast(local, remotes) && HomesApart(memory, local)
    requires OnlyHomes(d.occupied, memory, LocalIds(local) + RegionIds(remotes, turn))
    ensures var entries := Entries(remotes, turn);
      var c := ClaimRemembered(entries, memory, d.occupied);
      && (forall n :: n in entries && Remembers(memory, n) ==> Home(memory, n) in c.slots)
      && ((forall n :: n in entries ==> Remembers(memory, n)) ==>
            OnlyHomes(PlaceGroup(d, entries, memory).occupied, memory, LocalIds(local) + RegionIds(remotes, turn + 1)))
  {
    var entries := Entries(remotes, turn);
    EntriesIds(turn, remotes);
    var placed := LocalIds(local) + RegionIds(remotes, turn);
    GroupGoesHome(entries, memory, d.occupied, placed);
    assert placed + Ids(entries) == LocalIds(local) + RegionIds(remotes, turn + 1);
  }

  /** After `turns` turns only remembered cells are taken, by nodes whose turn has come. */
  ghost predicate HomesOnly(b: Board, turns: nat, local: Option<Node>, remotes: seq<Node>, memory: Memory) {
    OnlyHomes(b.occupied, memory, LocalIds(local) + RegionIds(remotes, turns))
  }

  /** Up to the turn of `n` only remembered cells are taken; after it `n` has its own. */
  ghost function KeepsHome(local: Option<Node>, remotes: seq<Node>, memory: Memory, n: Node): (Board, nat) -> bool
    requires n.id in memory
  {
    (b: Board, turns: nat) => if turns <= Turn(n.region) then HomesOnly(b, turns, local, remotes, memory)
                              else Home(memory, n) in b.slots
  }

  lemma KeepsHomeStep(d: Board, t: nat, local: Option<Node>, remotes: seq<Node>, memory: Memory, n: Node)
    requires t < |PLACEMENT_ORDER| && Cast(local, remotes) && HomesApart(memory, local)
    requires n in remotes && Remembers(memory, n) && KeepsHome(local, remotes, memory, n)(d, t)
    requires forall m :: m in remotes && Turn(m.region) < Turn(n.region) ==> Remembers(memory, m)
    ensures KeepsHome(local, remotes, memory, n)(PlaceGroup(d, Entries(remotes, t), memory), t + 1)
  {
    EntriesExact(remotes, t);
    GroupCarries(d, Entries(remotes, t), memory);
    if t <= Turn(n.region) {
      TurnGoesHome(d, t, local, remotes, memory);
    }
  }

  lemma KeepsHomeIsInductive(local: Option<Node>, remotes: seq<Node>, memory: Memory, n: Node)
    requires Cast(local, remotes) && HomesApart(memory, local) && n in remotes && Remembers(memory, n)
    requires forall m :: m in remotes && Turn(m.region) < Turn(n.region) ==> Remembers(memory, m)
    ensures KeepsHome(local, remotes, memory, n)(Start(local), 0)
    ensures Inductive(KeepsHome(local, remotes, memory, n), remotes, memory)
  {
    var inv := KeepsHome(local, remotes, memory, n);
    forall d: Board, t: nat | t < |PLACEMENT_ORDER| && inv(d, t)
      ensures inv(PlaceGroup(d, Entries(remotes, t), memory), t + 1)
    {
      KeepsHomeStep(d, t, local, remotes, memory, n);
    }
  }

  /** If every remote of an earlier region is remembered, a remembered node keeps its exact slot. */
  lemma RememberedSlotIsKept(local: Option<Node>, remotes: seq<Node>, memory: Memory, n: Node)
    requires Cast(local, remotes) && HomesApart(memory, local)
    requires n in remotes && Remembers(memory, n)
    requires forall m :: m in remotes && Turn(m.region) < Turn(n.region) ==> Remembers(memory, m)
    ensures Home(memory, n) in After(|PLACEMENT_ORDER|, local, remotes, memory).slots
  {
    KeepsHomeIsInductive(local, remotes, memory, n);
    AfterInduction(KeepsHome(local, remotes, memory, n), |PLACEMENT_ORDER|, local, remotes, memory);
  }

  // ----- ... and exactly when that is guaranteed

  /** The same nodes with other bearings, ranks of arrival and rings: only ideal cells differ. */
  ghost predicate SameButIdeals(others: seq<Node>, remotes: seq<Node>) {
    && |others| == |remotes|
    && forall i :: 0 <= i < |remotes| ==> others[i].(ideal := remotes[i].ideal) == remotes[i]
  }

  ghost predicate AllKept(local: Option<Node>, remotes: seq<Node>, memory: Memory) {
    forall n :: n in remotes && Remembers(memory, n) ==>
      Home(memory, n) in After(|PLACEMENT_ORDER|, local, remotes, memory).slots
  }

  /** No node placed afresh belongs to an earlier region than a remembered one. */
  ghost predicate NewcomersComeLast(remotes: seq<Node>, memory: Memory) {
    forall m, n :: m in remotes && n in remotes && !Remembers(memory, m) && Remembers(memory, n) ==>
      Turn(n.region) <= Turn(m.region)
  }

  lemma {:induction false} FreshCellsClaimed(b: Board, unplaced: seq<Node>)
    ensures b.occupied <= PlaceFresh(b, unplaced).occupied
    ensures forall n :: n in unplaced ==> n.ideal in PlaceFresh(b, unplaced).occupied
  {
    if unplaced != [] {
      var k := |unplaced| - 1;
      assert unplaced == unplaced[..k] + [unplaced[k]];
      FreshCellsClaimed(b, unplaced[..k]);
    }
  }

  lemma {:induction false} ClaimsGrow(entries: seq<Node>, memory: Memory, occupied: set<Cell>)
    ensures occupied <= ClaimRemembered(entries, memory, occupied).occupied
    ensures forall n ::
        n in entries && !Remembers(memory, n) ==> n in ClaimRemembered(entries, memory, occupied).unplaced
  {
    if entries != [] {
      var k := |entries| - 1;
      assert entries == entries[..k] + [entries[k]];
      ClaimsGrow(entries[..k], memory, occupied);
    }
  }

  lemma GroupClaims(d: Board, entries: seq<Node>, memory: Memory)
    ensures d.occupied <= PlaceGroup(d, entries, memory).occupied
  {
    var c := ClaimRemembered(entries, memory, d.occupied);
    ClaimsGrow(entries, memory, d.occupied);
    FreshCellsClaimed(Board(d.slots + c.slots, c.occupied), c.unplaced);
  }

  lemma FreshIdealClaimed(d: Board, remotes: seq<Node>, memory: Memory, m: Node)
    requires DistinctIds(remotes) && m in remotes && !Remembers(memory, m)
    ensures m.ideal in PlaceGroup(d, Entries(remotes, Turn(m.region)), memory).occupied
  {
    var entries := Entries(remotes, Turn(m.region));
    EntriesExact(remotes, Turn(m.region));
    ClaimsGrow(entries, memory, d.occupied);
    var c := ClaimRemembered(entries, memory, d.occupied);
    FreshCellsClaimed(Board(d.slots + c.slots, c.occupied), c.unplaced);
  }

  lemma NotPlacedBeforeItsTurn(d: Board, local: Option<Node>, remotes: seq<Node>, n: Node)
    requires Cast(local, remotes) && n in remotes && TidyAfter(d, Turn(n.region), local, remotes)
    ensures n.id !in SlotIds(d.slots)
  {
    assert n.id in Ids(remotes);
    if n.id in RegionIds(remotes, Turn(n.region)) {
      var o :| o in remotes && Turn(o.region) < Turn(n.region) && o.id == n.id;
      SameIdSameNode(remotes, o, n);
    }
  }

  /** A slot that a turn adds belongs to a node of that turn's region. */
  lemma AddedInItsTurn(d: Board, t: nat, remotes: seq<Node>, memory: Memory, n: Node, cell: Cell)
    requires t < |PLACEMENT_ORDER| && DistinctIds(remotes) && n in remotes
    ensures var s := Slot(n.id, cell, n.region);
      s in PlaceGroup(d, Entries(remotes, t), memory).slots && s !in d.slots ==> Turn(n.region) == t
  {
    var s := Slot(n.id, cell, n.region);
    GroupCarries(d, Entries(remotes, t), memory);
    EntriesExact(remotes, t);
    if s in PlaceGroup(d, Entries(remotes, t), memory).slots && s !in d.slots {
      var e :| e in Entries(remotes, t) && e.id == s.id && e.region == s.region;
      SameIdSameNode(remotes, e, n);
    }
  }

  lemma OneSlotPerCell(slots: seq<Slot>, occupied: set<Cell>, s: Slot, t: Slot)
    requires Tidy(slots, occupied) && s in slots && t in slots && s.cell == t.cell
    ensures s == t
  {
  }

  /** A cell taken before the node has a slot stays somebody else's. */
  lemma TakenByAnother(e: Board, final: Board, t: Slot)
    requires Tidy(e.slots, e.occupied) && Tidy(final.slots, final.occupied)
    requires (forall s :: s in e.slots ==> s in final.slots) && t.cell in e.occupied && t.id !in SlotIds(e.slots)
    ensures t !in final.slots
  {
    assert t.cell in SlotCells(e.slots);
    var s :| s in e.slots && s.cell == t.cell;
    assert s.id in SlotIds(e.slots);
    if t in final.slots {
      OneSlotPerCell(final.slots, final.occupied, s, t);
    }
  }

  /** The newcomer `m` takes its ideal cell at its turn, and `n` never gets that cell. */
  ghost function LosesHome(local: Option<Node>, remotes: seq<Node>, memory: Memory, m: Node, n: Node):
      (Board, nat) -> bool
    requires n.id in memory
  {
    (b: Board, turns: nat) => TidyAfter(b, turns, local, remotes) && Home(memory, n) !in b.slots &&
                              (Turn(m.region) < turns ==> m.ideal in b.occupied)
  }

  lemma LosesHomeStep(d: Board, t: nat, local: Option<Node>, remotes: seq<Node>, memory: Memory, m: Node, n: Node)
    requires t < |PLACEMENT_ORDER| && Cast(local, remotes) && m in remotes && n in remotes
    requires !Remembers(memory, m) && Remembers(memory, n) && Turn(m.region) < Turn(n.region)
    requires m.ideal == memory[n.id].cell && LosesHome(local, remotes, memory, m, n)(d, t)
    ensures LosesHome(local, remotes, memory, m, n)(PlaceGroup(d, Entries(remotes, t), memory), t + 1)
  {
    TidyTurn(d, t, local, remotes, memory);
    AddedInItsTurn(d, t, remotes, memory, n, memory[n.id].cell);
    GroupClaims(d, Entries(remotes, t), memory);
    if Turn(m.region) == t {
      FreshIdealClaimed(d, remotes, memory, m);
    }
    if Turn(n.region) == t {
      NotPlacedBeforeItsTurn(d, local, remotes, n);
      GroupCarries(d, Entries(remotes, t), memory);
      TakenByAnother(d, PlaceGroup(d, Entries(remotes, t), memory), Home(memory, n));
    }
  }

  lemma LosesHomeIsInductive(local: Option<Node>, remotes: seq<Node>, memory: Memory, m: Node, n: Node)
    requires Cast(local, remotes) && m in remotes && n in remotes
    requires !Remembers(memory, m) && Remembers(memory, n) && Turn(m.region) < Turn(n.region)
    requires m.ideal == memory[n.id].cell
    ensures LosesHome(local, remotes, memory, m, n)(Start(local), 0)
    ensures Inductive(LosesHome(local, remotes, memory, m, n), remotes, memory)
  {
    var inv := LosesHome(local, remotes, memory, m, n);
    TidyIsInductive(local, remotes, memory);
    assert n.id in Ids(remotes);
    assert local.Some? ==> local.value.id in LocalIds(local);
    forall d: Board, t: nat | t < |PLACEMENT_ORDER| && inv(d, t)
      ensures inv(PlaceGroup(d, Entries(remotes, t), memory), t + 1)
    {
      LosesHomeStep(d, t, local, remotes, memory, m, n);
    }
  }

  /** A newcomer of an earlier region whose ideal cell is somebody's remembered one takes it away. */
  lemma EarlierNewcomerDisplaces(local: Option<Node>, remotes: seq<Node>, memory: Memory, m: Node, n: Node)
    requires Cast(local, remotes) && m in remotes && n in remotes
    requires !Remembers(memory, m) && Remembers(memory, n) && Turn(m.region) < Turn(n.region)
    requires m.ideal == memory[n.id].cell
    ensures Home(memory, n) !in After(|PLACEMENT_ORDER|, local, remotes, memory).slots
  {
    LosesHomeIsInductive(local, remotes, memory, m, n);
    AfterInduction(LosesHome(local, remotes, memory, m, n), |PLACEMENT_ORDER|, local, remotes, memory);
  }

  lemma DisplacingGeometry(local: Option<Node>, remotes: seq<Node>, memory: Memory, m: Node, n: Node)
    returns (others: seq<Node>)
    requires Cast(local, remotes) && m in remotes && n in remotes
    requires !Remembers(memory, m) && Remembers(memory, n) && Turn(m.region) < Turn(n.region)
    ensures SameButIdeals(others, remotes) && !AllKept(local, others, memory)
  {
    var home := memory[n.id].cell;
    others := seq(|remotes|, i requires 0 <= i < |remotes| => remotes[i].(ideal := home));
    assert SameButIdeals(others, remotes);
    SameCast(local, others, remotes);
    var i :| 0 <= i < |remotes| && remotes[i] == m;
    var j :| 0 <= j < |remotes| && remotes[j] == n;
    assert others[i] in others && others[j] in others;
    EarlierNewcomerDisplaces(local, others, memory, others[i], others[j]);
  }

  lemma LateNewcomersKeepAll(local: Option<Node>, remotes: seq<Node>, memory: Memory)
    requires Cast(local, remotes) && HomesApart(memory, local) && NewcomersComeLast(remotes, memory)
    ensures AllKept(local, remotes, memory)
  {
    forall n | n in remotes && Remembers(memory, n)
      ensures Home(memory, n) in After(|PLACEMENT_ORDER|, local, remotes, memory).slots
    {
      RememberedSlotIsKept(local, remotes, memory, n);
    }
  }

  /** Remembered slots are safe from every possible newcomer geometry exactly when no newcomer's
      region is placed before a remembered node's. */
  lemma KeptExactlyWhenNewcomersComeLast(local: Option<Node>, remotes: seq<Node>, memory: Memory)
    requires Cast(local, remotes) && HomesApart(memory, local)
    ensures (forall others :: SameButIdeals(others, remotes) ==> AllKept(local, others, memory))
       <==> NewcomersComeLast(remotes, memory)
  {
    if NewcomersComeLast(remotes, memory) {
      forall others | SameButIdeals(others, remotes) ensures AllKept(local, others, memory) {
        SameCast(local, others, remotes);
        SameNewcomers(others, remotes, memory);
        LateNewcomersKeepAll(local, others, memory);
      }
    } else {
      var m, n :| m in remotes && n in remotes && !Remembers(memory, m) && Remembers(memory, n)
                  && Turn(m.region) < Turn(n.region);
      var others := DisplacingGeometry(local, remotes, memory, m, n);
    }
  }

  lemma SameCast(local: Option<Node>, others: seq<Node>, remotes: seq<Node>)
    requires Cast(local, remotes) && SameButIdeals(others, remotes)
    ensures Cast(local, others)
  {
    forall id | id in Ids(others) ensures id in Ids(remotes) {
      var i :| 0 <= i < |others| && others[i].id == id;
      assert remotes[i] in remotes;
    }
    forall i, j | 0 <= i < j < |others| ensures others[i].id != others[j].id {
      assert remotes[i].id != remotes[j].id;
    }
  }

  lemma SameNewcomers(others: seq<Node>, remotes: seq<Node>, memory: Memory)
    requires SameButIdeals(others, remotes) && NewcomersComeLast(remotes, memory)
    ensures NewcomersComeLast(others, memory)
  {
    forall m, n | m in others && n in others && !Remembers(memory, m) && Remembers(memory, n)
      ensures Turn(n.region) <= Turn(m.region)
    {
      var i :| 0 <= i < |others| && others[i] == m;
      var j :| 0 <= j < |others| && others[j] == n;
      assert remotes[i] in remotes && remotes[j] in remotes;
      assert remotes[i].id == m.id && remotes[j].id == n.id;
    }
  }

  // ----- Layout after layout

  /** What a layout leaves behind: the memory for the next one, the ratchet, and its own results. */
  datatype Session = Session(memory: Memory, reach: Extent, slots: seq<Slot>, at: map<NodeId, Cell>)

  function RememberAll(slots: seq<Slot>): Memory {
    if slots == [] then map[]
    else RememberAll(slots[1..])[slots[0].id := Place(slots[0].cell, slots[0].region)]
  }

  /** The farthest step per half-axis never shrinks. */
  function Ratchet(reach: Extent, slots: seq<Slot>): Extent {
    map[UP := Max(Floor(reach, UP), Farthest(slots, UP)),
        DOWN := Max(Floor(reach, DOWN), Farthest(slots, DOWN)),
        LEFT := Max(Floor(reach, LEFT), Farthest(slots, LEFT)),
        RIGHT := Max(Floor(reach, RIGHT), Farthest(slots, RIGHT))]
  }

  ghost function Refresh(f: Frame, s: Session, nodes: seq<Node>): Session {
    var slots := AssignSlots(nodes, s.memory);
    var reach := Ratchet(s.reach, slots);
    Session(RememberAll(slots), reach, slots, Positions(f, slots, reach))
  }

  const START := Session(map[], map[], [], map[])

  /** The node lists of one layout after another. */
  datatype Run = First(nodes: seq<Node>) | Then(earlier: Run, nodes: seq<Node>)

  /** What the layout before the last one left behind. */
  ghost function Prior(f: Frame, run: Run): Session
    decreases run, 0
  {
    match run
    case First(_) => START
    case Then(earlier, _) => Outcome(f, earlier)
  }

  ghost function Outcome(f: Frame, run: Run): Session
    decreases run, 1
  {
    Refresh(f, Prior(f, run), run.nodes)
  }

  lemma {:induction false} RememberAllExact(slots: seq<Slot>)
    requires DistinctSlotIds(slots)
    ensures RememberAll(slots).Keys == SlotIds(slots)
    ensures forall s :: s in slots ==> s.id in RememberAll(slots) && RememberAll(slots)[s.id] == Place(s.cell, s.region)
  {
    if slots != [] {
      assert slots == [slots[0]] + slots[1..];
      assert SlotIds(slots) == {slots[0].id} + SlotIds(slots[1..]);
      RememberAllExact(slots[1..]);
      forall s | s in slots[1..] ensures s.id != slots[0].id {
        var i :| 0 <= i < |slots[1..]| && slots[1..][i] == s;
        assert slots[i + 1] == s;
      }
      RememberOneMore(RememberAll(slots[1..]), slots[1..], slots[0]);
    }
  }

  lemma RememberOneMore(m: Memory, tail: seq<Slot>, first: Slot)
    requires m.Keys == SlotIds(tail) && (forall s :: s in tail ==> s.id in m && m[s.id] == Place(s.cell, s.region))
    requires forall s :: s in tail ==> s.id != first.id
    ensures var r := m[first.id := Place(first.cell, first.region)];
      r.Keys == {first.id} + SlotIds(tail) &&
      forall s :: s in [first] + tail ==> s.id in r && r[s.id] == Place(s.cell, s.region)
  {
  }

  /** The nodes of one refresh, with `you` as their local one. */
  ghost predicate HasYou(nodes: seq<Node>, you: NodeId) {
    && |nodes| < CAPACITY
    && FirstLocal(UniqueFrom(nodes, {})).Some?
    && FirstLocal(UniqueFrom(nodes, {})).value.id == you
  }

  function Others(nodes: seq<Node>): seq<Node> {
    var ordered := UniqueFrom(nodes, {});
    Remotes(ordered, FirstLocal(ordered))
  }

  lemma SlotsOf(nodes: seq<Node>, memory: Memory, you: NodeId)
    requires HasYou(nodes, you)
    ensures var slots := AssignSlots(nodes, memory);
      && DistinctSlotIds(slots) && DistinctCells(slots)
      && Slot(you, ORIGIN, LOCAL) in slots
      && RememberAll(slots).Keys == SlotIds(slots)
      && forall s :: s in slots ==> RememberAll(slots)[s.id] == Place(s.cell, s.region)
  {
    AssignmentIsInjective(nodes, memory);
    RememberAllExact(AssignSlots(nodes, memory));
  }

  /** Whatever came before, the memory a layout leaves satisfies what the next one needs. */
  lemma MemoryIsApart(nodes: seq<Node>, memory: Memory, you: NodeId, local: Option<Node>)
    requires HasYou(nodes, you) && local.Some? && local.value.id == you
    ensures HomesApart(RememberAll(AssignSlots(nodes, memory)), local)
  {
    var slots := AssignSlots(nodes, memory);
    var next := RememberAll(slots);
    SlotsOf(nodes, memory, you);
    forall p, q | p in next && q in next && p != q ensures next[p].cell != next[q].cell {
      var s :| s in slots && s.id == p;
      var t :| t in slots && t.id == q;
      if s.cell == t.cell { SameCellSameSlot(slots, s, t); }
    }
    var y := Slot(you, ORIGIN, LOCAL);
    assert y in slots && next[y.id] == Place(ORIGIN, LOCAL);
  }

  ghost predicate SlotRemembered(memory: Memory, t: Slot) {
    t.id in memory && memory[t.id] == Place(t.cell, t.region)
  }

  /** A refresh that brings no news about the nodes already placed: besides departures there are only
      newcomers of the UNKNOWN region, they stay within the farthest steps used so far, and every
      step fits its half-axis. */
  ghost predicate Quiet(f: Frame, s: Session, nodes: seq<Node>, you: NodeId) {
    && HasYou(nodes, you)
    && (forall n :: n in Others(nodes) ==> Remembers(s.memory, n) || n.region == UNKNOWN)
    && (forall t, d :: t in AssignSlots(nodes, s.memory) && !SlotRemembered(s.memory, t) ==>
          Step(d, t.cell) <= Floor(s.reach, d))
    && Fits(f, AssignSlots(nodes, s.memory))
  }

  lemma QuietKeepsSlots(f: Frame, s: Session, nodes: seq<Node>, you: NodeId)
    requires Quiet(f, s, nodes, you) && HomesApart(s.memory, FirstLocal(UniqueFrom(nodes, {})))
    ensures forall n ::
        n in Others(nodes) && Remembers(s.memory, n) ==> Home(s.memory, n) in AssignSlots(nodes, s.memory)
  {
    var local := FirstLocal(UniqueFrom(nodes, {}));
    TheCast(nodes);
    LateNewcomersKeepAll(local, Others(nodes), s.memory);
  }

  lemma RememberedStepIsCovered(slots: seq<Slot>, t: Slot, d: Direction)
    requires DistinctSlotIds(slots) && SlotRemembered(RememberAll(slots), t)
    ensures Step(d, t.cell) <= Farthest(slots, d)
  {
    RememberAllExact(slots);
    var s :| s in slots && s.id == t.id;
    FarthestBounds(slots, d);
  }

  lemma NewStepsAreCovered(slots: seq<Slot>, reach: Extent, next: seq<Slot>, d: Direction)
    requires DistinctSlotIds(slots) && Farthest(slots, d) <= Floor(reach, d) && 0 <= Floor(reach, d)
    requires forall t :: t in next && !SlotRemembered(RememberAll(slots), t) ==> Step(d, t.cell) <= Floor(reach, d)
    ensures Farthest(next, d) <= Floor(reach, d)
  {
    FarthestBounds(next, d);
    forall x | x in next ensures Step(d, x.cell) <= Floor(reach, d) {
      if SlotRemembered(RememberAll(slots), x) {
        RememberedStepIsCovered(slots, x, d);
      }
    }
  }

  lemma RatchetCovers(reach: Extent, slots: seq<Slot>, d: Direction)
    ensures 0 <= Farthest(slots, d) <= Floor(Ratchet(reach, slots), d)
  {
    FarthestBounds(slots, d);
  }

  lemma QuietKeepsReach(f: Frame, before: Session, last: seq<Node>, nodes: seq<Node>, you: NodeId, d: Direction)
    requires HasYou(last, you)
    requires Quiet(f, Refresh(f, before, last), nodes, you)
    ensures var s := Refresh(f, before, last);
      Farthest(s.slots, d) <= Floor(s.reach, d) && Farthest(AssignSlots(nodes, s.memory), d) <= Floor(s.reach, d)
  {
    var s := Refresh(f, before, last);
    SlotsOf(last, before.memory, you);
    RatchetCovers(before.reach, s.slots, d);
    NewStepsAreCovered(s.slots, s.reach, AssignSlots(nodes, s.memory), d);
  }

  /** The factors do not move when the ratchet already covers every step of the new layout. */
  lemma CoveredScalesStay(f: Frame, earlier: seq<Slot>, slots: seq<Slot>, reach: Extent)
    requires forall d: Direction :: Farthest(slots, d) <= Floor(reach, d) && Farthest(earlier, d) <= Floor(reach, d)
    ensures AllScales(f, slots, Ratchet(reach, slots)) == AllScales(f, earlier, reach)
  {
    forall d: Direction ensures Scale(f, slots, Ratchet(reach, slots), d) == Scale(f, earlier, reach, d) {
      match d case UP => case DOWN => case LEFT => case RIGHT =>
    }
  }

  /** One quiet refresh moves nobody whose region is unchanged, and YOU stays at the exact centre. */
  lemma QuietRefreshMovesNobody(f: Frame, before: Session, last: seq<Node>, nodes: seq<Node>, you: NodeId, n: Node)
    requires CentreOnGrid(f) && HasYou(last, you)
    requires var s := Refresh(f, before, last);
      Fits(f, s.slots) && Quiet(f, s, nodes, you) && n in Others(nodes) && Remembers(s.memory, n)
    ensures var s := Refresh(f, before, last); var t := Refresh(f, s, nodes);
      && n.id in s.at && n.id in t.at && t.at[n.id] == s.at[n.id]
      && you in t.at && t.at[you] == Cell(f.centerRow, f.centerColumn)
      && Remembers(t.memory, n)
  {
    var s := Refresh(f, before, last);
    var t := Refresh(f, s, nodes);
    MemoryIsApart(last, before.memory, you, FirstLocal(UniqueFrom(nodes, {})));
    SlotsOf(last, before.memory, you);
    SlotsOf(nodes, s.memory, you);
    QuietKeepsSlots(f, s, nodes, you);
    forall d: Direction
      ensures Farthest(t.slots, d) <= Floor(s.reach, d) && Farthest(s.slots, d) <= Floor(s.reach, d)
    {
      QuietKeepsReach(f, before, last, nodes, you, d);
    }
    CoveredScalesStay(f, s.slots, t.slots, s.reach);
    var home := Home(s.memory, n);
    assert home in t.slots;
    var kept :| kept in s.slots && kept.id == n.id;
    assert kept == home;
    FittingSlotsAreNotNudged(f, s.slots, s.reach);
    FittingSlotsAreNotNudged(f, t.slots, t.reach);
    YouAtTheCentre(f, t.slots, t.reach, Slot(you, ORIGIN, LOCAL));
  }

  /** The first layout fits its room, and every later refresh is quiet. */
  ghost predicate QuietRun(f: Frame, run: Run, you: NodeId) {
    match run
    case First(nodes) => HasYou(nodes, you) && Fits(f, Outcome(f, run).slots)
    case Then(earlier, nodes) => QuietRun(f, earlier, you) && Quiet(f, Outcome(f, earlier), nodes, you)
  }

  ghost predicate OnBoard(nodes: seq<Node>, id: NodeId, r: RemoteRegion) {
    exists n :: n in Others(nodes) && n.id == id && n.region == r
  }

  lemma PlacedAndRemembered(f: Frame, before: Session, nodes: seq<Node>, you: NodeId, n: Node)
    requires HasYou(nodes, you) && n in Others(nodes)
    ensures var s := Refresh(f, before, nodes); n.id in s.memory && Remembers(s.memory, n)
  {
    var local := FirstLocal(UniqueFrom(nodes, {}));
    var remotes := Others(nodes);
    var slots := AssignSlots(nodes, before.memory);
    SlotsOf(nodes, before.memory, you);
    TheCast(nodes);
    AfterTidy(|PLACEMENT_ORDER|, local, remotes, before.memory);
    AfterCarries(|PLACEMENT_ORDER|, local, remotes, before.memory);
    assert n.id in RegionIds(remotes, |PLACEMENT_ORDER|);
    var s :| s in slots && s.id == n.id;
    assert n.id in Ids(remotes);
    assert s !in Start(local).slots;
    var m :| m in remotes && m.id == s.id && m.region == s.region;
    SameIdSameNode(remotes, m, n);
  }

  lemma OnBoardIsPlaced(f: Frame, before: Session, nodes: seq<Node>, you: NodeId, id: NodeId, r: RemoteRegion)
    requires HasYou(nodes, you) && OnBoard(nodes, id, r)
    ensures id in Refresh(f, before, nodes).at
  {
    var n :| n in Others(nodes) && n.id == id && n.region == r;
    PlacedAndRemembered(f, before, nodes, you, n);
    SlotsOf(nodes, before.memory, you);
    var s := Refresh(f, before, nodes);
    EveryoneIsPositioned(f, s.slots, s.reach);
  }

  lemma QuietStep(f: Frame, before: Session, last: seq<Node>, nodes: seq<Node>, you: NodeId, id: NodeId,
                  r: RemoteRegion)
    requires CentreOnGrid(f) && HasYou(last, you) && OnBoard(last, id, r) && OnBoard(nodes, id, r)
    requires var s := Refresh(f, before, last); Fits(f, s.slots) && Quiet(f, s, nodes, you)
    ensures var s := Refresh(f, before, last); var t := Refresh(f, s, nodes);
      id in s.at && id in t.at && t.at[id] == s.at[id]
  {
    var n :| n in Others(nodes) && n.id == id && n.region == r;
    var o :| o in Others(last) && o.id == id && o.region == r;
    PlacedAndRemembered(f, before, last, you, o);
    QuietRefreshMovesNobody(f, before, last, nodes, you, n);
  }

  /** `start` is a stage of `run`, and every layout from `start` on shows the node in region `r`. */
  ghost predicate OnBoardSince(start: Run, run: Run, id: NodeId, r: RemoteRegion) {
    OnBoard(run.nodes, id, r) && (run == start || (run.Then? && OnBoardSince(start, run.earlier, id, r)))
  }

  lemma LastLayout(f: Frame, run: Run, you: NodeId)
    requires QuietRun(f, run, you)
    ensures HasYou(run.nodes, you) && Fits(f, Outcome(f, run).slots)
  {
  }

  lemma QuietRunStep(f: Frame, run: Run, you: NodeId, id: NodeId, r: RemoteRegion)
    requires CentreOnGrid(f) && run.Then? && QuietRun(f, run, you)
    requires OnBoard(run.earlier.nodes, id, r) && OnBoard(run.nodes, id, r)
    ensures StaysPut(Outcome(f, run.earlier).at, Outcome(f, run).at, id)
  {
    LastLayout(f, run.earlier, you);
    QuietStep(f, Prior(f, run.earlier), run.earlier.nodes, run.nodes, you, id, r);
  }

  ghost predicate StaysPut(before: map<NodeId, Cell>, after: map<NodeId, Cell>, id: NodeId) {
    id in before && id in after && after[id] == before[id]
  }

  /** Over a whole quiet run a node never leaves the cell it has on some layout, the opening one or
      the one that first places it, as long as every layout since shows it in the same region. */
  lemma {:induction false} BoardIsStable(f: Frame, start: Run, run: Run, you: NodeId, id: NodeId, r: RemoteRegion)
    requires CentreOnGrid(f) && QuietRun(f, run, you) && OnBoardSince(start, run, id, r)
    ensures StaysPut(Outcome(f, start).at, Outcome(f, run).at, id)
    decreases run
  {
    if run == start {
      LastLayout(f, run, you);
      OnBoardIsPlaced(f, Prior(f, run), run.nodes, you, id, r);
    } else {
      BoardIsStable(f, start, run.earlier, you, id, r);
      QuietRunStep(f, run, you, id, r);
    }
  }
}
