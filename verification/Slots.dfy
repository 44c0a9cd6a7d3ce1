/** assign_grid_slots: YOU at the origin, then one group of remotes after another on the unbounded
    logical board, remembered cells first within each group. Bearings, ring angles and the GPS
    projection only decide a node's region, its rank inside the region and its ideal cell, so those
    three arrive as data. */
module Slots {
  import opened Common
  import opened Sorting
  import opened Grid

  /** A node ID in its normalised form; only equality and order matter. */
  type NodeId = nat

  datatype Region = LOCAL | N | NE | E | SE | S | SW | W | NW | GPS_RELATIVE | UNKNOWN

  type RemoteRegion = r: Region | r != LOCAL witness UNKNOWN

  const ORIGIN := Cell(0, 0)
  const PLACEMENT_ORDER: seq<RemoteRegion> := [N, NE, E, SE, S, SW, W, NW, GPS_RELATIVE, UNKNOWN]

  function Turn(r: RemoteRegion): (t: nat)
    ensures t < |PLACEMENT_ORDER| && PLACEMENT_ORDER[t] == r
  {
    match r
    case N => 0
    case NE => 1
    case E => 2
    case SE => 3
    case S => 4
    case SW => 5
    case W => 6
    case NW => 7
    case GPS_RELATIVE => 8
    case UNKNOWN => 9
  }

  datatype Node = Node(id: NodeId, isLocal: bool, region: RemoteRegion, rank: int, ideal: Cell)

  /** A placed node: PositionedNode in the source. */
  datatype Slot = Slot(id: NodeId, cell: Cell, region: Region)

  /** What a node's last placement was. */
  datatype Place = Place(cell: Cell, region: Region)

  type Memory = map<NodeId, Place>

  predicate RanksFirst(m: Node, n: Node) {
    m.rank < n.rank || (m.rank == n.rank && m.id <= n.id)
  }

  // ----- Choosing who is placed

  function Ids(nodes: seq<Node>): set<NodeId> {
    set n | n in nodes :: n.id
  }

  /** The nodes whose ID is not in `seen`, each ID's first occurrence only. */
  function UniqueFrom(nodes: seq<Node>, seen: set<NodeId>): seq<Node> {
    if nodes == [] then []
    else if nodes[0].id in seen then UniqueFrom(nodes[1..], seen)
    else [nodes[0]] + UniqueFrom(nodes[1..], seen + {nodes[0].id})
  }

  function FirstLocal(nodes: seq<Node>): Option<Node> {
    if nodes == [] then None
    else if nodes[0].isLocal then Some(nodes[0])
    else FirstLocal(nodes[1..])
  }

  /** Everyone but the chosen local node; a second claimed local is an ordinary remote. */
  function Remotes(nodes: seq<Node>, local: Option<Node>): seq<Node> {
    if nodes == [] then []
    else (if local.Some? && nodes[0].id == local.value.id then [] else [nodes[0]]) + Remotes(nodes[1..], local)
  }

  function Group(nodes: seq<Node>, region: Region): seq<Node> {
    if nodes == [] then []
    else (if nodes[0].region == region then [nodes[0]] else []) + Group(nodes[1..], region)
  }

  // ----- One group

  predicate Remembers(memory: Memory, n: Node) {
    n.id in memory && memory[n.id].region == n.region
  }

  /** Where the first pass leaves things: the slots claimed, the nodes still to place, the cells taken. */
  datatype Claims = Claims(slots: seq<Slot>, unplaced: seq<Node>, occupied: set<Cell>)

  function ClaimOne(c: Claims, n: Node, memory: Memory): Claims {
    if Remembers(memory, n) && memory[n.id].cell !in c.occupied
    then Claims(c.slots + [Slot(n.id, memory[n.id].cell, n.region)], c.unplaced, c.occupied + {memory[n.id].cell})
    else c.(unplaced := c.unplaced + [n])
  }

  function ClaimRemembered(entries: seq<Node>, memory: Memory, occupied: set<Cell>): Claims {
    if entries == [] then Claims([], [], occupied)
    else ClaimOne(ClaimRemembered(entries[..|entries| - 1], memory, occupied), entries[|entries| - 1], memory)
  }

  datatype Board = Board(slots: seq<Slot>, occupied: set<Cell>)

  ghost function PlaceOne(b: Board, n: Node): Board {
    var cell := SlotFor(n.ideal, b.occupied);
    Board(b.slots + [Slot(n.id, cell, n.region)], b.occupied + {cell})
  }

  ghost function PlaceFresh(b: Board, unplaced: seq<Node>): Board {
    if unplaced == [] then b else PlaceOne(PlaceFresh(b, unplaced[..|unplaced| - 1]), unplaced[|unplaced| - 1])
  }

  /** _place_group_sticky_first on a board that already holds the earlier groups. */
  ghost function PlaceGroup(b: Board, entries: seq<Node>, memory: Memory): Board {
    var c := ClaimRemembered(entries, memory, b.occupied);
    PlaceFresh(Board(b.slots + c.slots, c.occupied), c.unplaced)
  }

  // ----- All groups

  function Entries(remotes: seq<Node>, turn: nat): seq<Node>
    requires turn < |PLACEMENT_ORDER|
  {
    Sort(Group(remotes, PLACEMENT_ORDER[turn]), RanksFirst)
  }

  function Start(local: Option<Node>): Board {
    if local.Some? then Board([Slot(local.value.id, ORIGIN, LOCAL)], {ORIGIN}) else Board([], {})
  }

  /** The board once the groups of the first `turns` regions are placed. */
  ghost function After(turns: nat, local: Option<Node>, remotes: seq<Node>, memory: Memory): Board
    requires turns <= |PLACEMENT_ORDER|
  {
    if turns == 0 then Start(local)
    else PlaceGroup(After(turns - 1, local, remotes, memory), Entries(remotes, turns - 1), memory)
  }

  ghost function AssignSlots(nodes: seq<Node>, memory: Memory): seq<Slot> {
    var ordered := UniqueFrom(nodes, {});
    var local := FirstLocal(ordered);
    After(|PLACEMENT_ORDER|, local, Remotes(ordered, local), memory).slots
  }

  /** The set of claimed cells that the placement functions pass around and update. */
  class Occupancy {
    var cells: set<Cell>

    constructor (initial: set<Cell>)
      ensures cells == initial
    {
      cells := initial;
    }

    /** _reserve_slot: claims exactly one cell, a nearest unclaimed one (see Grid.SlotForIsNearest). */
    method ReserveSlot(ideal: Cell) returns (slot: Cell)
      modifies this
      ensures slot == SlotFor(ideal, old(cells))
      ensures cells == old(cells) + {slot}
    {
      if ideal !in cells {
        slot := ideal;
      } else {
        var found := ScanRings(ideal, LAST_RING, Free(cells));
        slot := if found.Some? then found.value else ideal;
      }
      cells := cells + {slot};
    }

    /** _place_group_sticky_first: the group's slots in claim order; the caller's set grows by their cells. */
    method PlaceGroupStickyFirst(entries: seq<Node>, memory: Memory) returns (slots: seq<Slot>)
      modifies this
      ensures forall prefix :: PlaceGroup(Board(prefix, old(cells)), entries, memory) == Board(prefix + slots, cells)
    {
      slots := [];
      var unplaced: seq<Node> := [];
      for i := 0 to |entries|
        invariant Claims(slots, unplaced, cells) == ClaimRemembered(entries[..i], memory, old(cells))
      {
        assert entries[..i + 1][..i] == entries[..i];
        var n := entries[i];
        if n.id in memory && memory[n.id].region == n.region {
          var candidate := memory[n.id].cell;
          if candidate !in cells {
            cells := cells + {candidate};
            slots := slots + [Slot(n.id, candidate, n.region)];
            continue;
          }
        }
        unplaced := unplaced + [n];
      }
      assert entries[..|entries|] == entries;
      ghost var claimed, taken := slots, cells;
      for i := 0 to |unplaced|
        invariant claimed <= slots
        invariant forall prefix ::
          PlaceFresh(Board(prefix + claimed, taken), unplaced[..i]) == Board(prefix + slots, cells)
      {
        assert unplaced[..i + 1][..i] == unplaced[..i];
        ghost var before := slots;
        var cell := ReserveSlot(unplaced[i].ideal);
        slots := slots + [Slot(unplaced[i].id, cell, unplaced[i].region)];
        assert forall prefix :: (prefix + before) + [Slot(unplaced[i].id, cell, unplaced[i].region)] == prefix + slots;
      }
      assert unplaced[..|unplaced|] == unplaced;
    }
  }

  method KeepFirstOfEachId(nodes: seq<Node>) returns (ordered: seq<Node>)
    ensures ordered == UniqueFrom(nodes, {})
  {
    ordered := [];
    var seen: set<NodeId> := {};
    for i := 0 to |nodes|
      invariant ordered + UniqueFrom(nodes[i..], seen) == UniqueFrom(nodes, {})
    {
      assert nodes[i..][1..] == nodes[i + 1..];
      if nodes[i].id !in seen {
        ordered := ordered + [nodes[i]];
        seen := seen + {nodes[i].id};
      }
    }
  }

  method FindLocal(ordered: seq<Node>) returns (local: Option<Node>)
    ensures local == FirstLocal(ordered)
  {
    for i := 0 to |ordered|
      invariant FirstLocal(ordered) == FirstLocal(ordered[i..])
    {
      assert ordered[i..][1..] == ordered[i + 1..];
      if ordered[i].isLocal {
        return Some(ordered[i]);
      }
    }
    return None;
  }

  method AssignGridSlots(nodes: seq<Node>, memory: Memory) returns (slots: seq<Slot>)
    ensures slots == AssignSlots(nodes, memory)
  {
    var ordered := KeepFirstOfEachId(nodes);
    var local := FindLocal(ordered);
    var remotes := Remotes(ordered, local);
    slots := Start(local).slots;
    var occupied := new Occupancy(Start(local).occupied);
    for turn := 0 to |PLACEMENT_ORDER|
      invariant Board(slots, occupied.cells) == After(turn, local, remotes, memory)
    {
      var placed := occupied.PlaceGroupStickyFirst(Entries(remotes, turn), memory);
      slots := slots + placed;
    }
  }
}
