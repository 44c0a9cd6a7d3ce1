/** Who is placed first within a region, and what that gives it. */
module SlotOrder {
  import opened Common
  import opened Sorting
  import opened Grid
  import opened Slots
  import opened SlotProperties
  import opened Stability

  // ----- The order of a group

  /** A smaller rank first, and of equal ranks the smaller ID. */
  ghost predicate Precedes(m: Node, n: Node) {
    m.rank < n.rank || (m.rank == n.rank && m.id < n.id)
  }

  ghost predicate InOrder(nodes: seq<Node>) {
    forall i, j :: 0 <= i < j < |nodes| ==> Precedes(nodes[i], nodes[j])
  }

  lemma EntriesInOrder(remotes: seq<Node>, turn: nat)
    requires turn < |PLACEMENT_ORDER| && DistinctIds(remotes)
    ensures InOrder(Entries(remotes, turn))
  {
    var entries := Entries(remotes, turn);
    SortSorted(Group(remotes, PLACEMENT_ORDER[turn]), RanksFirst);
    EntriesExact(remotes, turn);
    forall i, j | 0 <= i < j < |entries| ensures Precedes(entries[i], entries[j]) {
      assert RanksFirst(entries[i], entries[j]) && entries[i].id != entries[j].id;
    }
  }

  lemma {:induction false} UnplacedInOrder(entries: seq<Node>, memory: Memory, occupied: set<Cell>)
    requires InOrder(entries)
    ensures var c := ClaimRemembered(entries, memory, occupied);
      InOrder(c.unplaced) && forall n :: n in c.unplaced ==> n in entries
  {
    if entries != [] {
      var k := |entries| - 1;
      var front := entries[..k];
      UnplacedInOrder(front, memory, occupied);
      forall n | n in front ensures Precedes(n, entries[k]) {
        var i :| 0 <= i < k && entries[i] == n;
      }
      assert entries == front + [entries[k]];
    }
  }

  lemma PlacesInOrder(nodes: seq<Node>, m: Node, n: Node) returns (i: nat, j: nat)
    requires InOrder(nodes) && m in nodes && n in nodes && Precedes(m, n)
    ensures i < j < |nodes| && nodes[i] == m && nodes[j] == n
  {
    i :| 0 <= i < |nodes| && nodes[i] == m;
    j :| 0 <= j < |nodes| && nodes[j] == n;
  }

  // ----- Newcomers

  /** Nobody remembers a place of the node in its present region. */
  ghost predicate Newcomer(memory: Memory, n: Node) {
    n.id !in memory || memory[n.id].region != n.region
  }

  /** Slot `i` is the node's, on its ideal cell unless an earlier slot holds that, and then on a nearest cell that no
      earlier slot holds. */
  ghost predicate SeatedAt(slots: seq<Slot>, i: nat, n: Node)
    requires i < |slots|
  {
    var taken := SlotCells(slots[..i]);
    && slots[i].id == n.id && slots[i].region == n.region
    && slots[i].cell !in taken
    && (n.ideal !in taken ==> slots[i].cell == n.ideal)
    && forall c :: c !in taken ==> Distance(n.ideal, slots[i].cell) <= Distance(n.ideal, c)
  }

  lemma PlaceOneSeats(b: Board, n: Node)
    requires Tidy(b.slots, b.occupied) && |b.slots| < CAPACITY
    ensures var r := PlaceOne(b, n); |r.slots| == |b.slots| + 1 && SeatedAt(r.slots, |b.slots|, n)
  {
    TidySize(b.slots, b.occupied);
    SlotForIsFree(n.ideal, b.occupied);
    SlotForIsNearest(n.ideal, b.occupied);
    assert PlaceOne(b, n).slots[..|b.slots|] == b.slots;
  }

  lemma StillSeated(slots: seq<Slot>, more: seq<Slot>, i: nat, n: Node)
    requires i < |slots| && slots <= more && SeatedAt(slots, i, n)
    ensures SeatedAt(more, i, n)
  {
    assert more[..i] == slots[..i];
  }

  lemma {:induction false} FreshSeats(b: Board, unplaced: seq<Node>, k: nat)
    requires Tidy(b.slots, b.occupied) && DistinctIds(unplaced) && Ids(unplaced) !! SlotIds(b.slots)
    requires |b.slots| + |unplaced| <= CAPACITY && k < |unplaced|
    ensures var r := PlaceFresh(b, unplaced);
      && |r.slots| == |b.slots| + |unplaced| && b.slots <= r.slots
      && SeatedAt(r.slots, |b.slots| + k, unplaced[k])
  {
    var n := |unplaced| - 1;
    var front := unplaced[..n];
    assert unplaced == front + [unplaced[n]];
    assert Ids(unplaced) == Ids(front) + {unplaced[n].id};
    FreshTidy(b, front);
    FreshExtends(b, front);
    if k < n {
      FreshSeats(b, front, k);
    } else if n > 0 {
      FreshSeats(b, front, 0);
    }
    SeatedStill(PlaceFresh(b, front), PlaceFresh(b, unplaced), unplaced[n], |b.slots| + k, unplaced[k]);
  }

  lemma SeatedStill(d: Board, r: Board, n: Node, i: nat, m: Node)
    requires r == PlaceOne(d, n) && Tidy(d.slots, d.occupied) && i <= |d.slots| < CAPACITY
    requires if i < |d.slots| then SeatedAt(d.slots, i, m) else m == n
    ensures |r.slots| == |d.slots| + 1 && d.slots <= r.slots && SeatedAt(r.slots, i, m)
  {
    PlaceOneSeats(d, n);
    if i < |d.slots| {
      StillSeated(d.slots, r.slots, i, m);
    }
  }

  lemma {:induction false} FreshExtends(b: Board, unplaced: seq<Node>)
    ensures b.slots <= PlaceFresh(b, unplaced).slots
  {
    if unplaced != [] {
      FreshExtends(b, unplaced[..|unplaced| - 1]);
    }
  }

  lemma GroupExtends(d: Board, entries: seq<Node>, memory: Memory)
    ensures d.slots <= PlaceGroup(d, entries, memory).slots
  {
    var c := ClaimRemembered(entries, memory, d.occupied);
    FreshExtends(Board(d.slots + c.slots, c.occupied), c.unplaced);
  }

  /** Both are seated, the first before the second. */
  ghost predicate SeatedInOrder(slots: seq<Slot>, m: Node, n: Node) {
    exists i, j :: 0 <= i < j < |slots| && SeatedAt(slots, i, m) && SeatedAt(slots, j, n)
  }

  lemma StayInOrder(slots: seq<Slot>, more: seq<Slot>, m: Node, n: Node)
    requires slots <= more && SeatedInOrder(slots, m, n)
    ensures SeatedInOrder(more, m, n)
  {
    var i, j :| 0 <= i < j < |slots| && SeatedAt(slots, i, m) && SeatedAt(slots, j, n);
    StillSeated(slots, more, i, m);
    StillSeated(slots, more, j, n);
  }

  lemma GroupSeatsInOrder(d: Board, entries: seq<Node>, memory: Memory, m: Node, n: Node)
    requires Tidy(d.slots, d.occupied) && DistinctIds(entries) && Ids(entries) !! SlotIds(d.slots)
    requires |d.slots| + |entries| <= CAPACITY && InOrder(entries)
    requires m in entries && n in entries && Newcomer(memory, m) && Newcomer(memory, n) && Precedes(m, n)
    ensures SeatedInOrder(PlaceGroup(d, entries, memory).slots, m, n)
  {
    var c := ClaimRemembered(entries, memory, d.occupied);
    ClaimTidy(d.slots, d.occupied, entries, memory);
    ClaimsGrow(entries, memory, d.occupied);
    UnplacedInOrder(entries, memory, d.occupied);
    var b := Board(d.slots + c.slots, c.occupied);
    assert SlotIds(b.slots) == SlotIds(d.slots) + SlotIds(c.slots);
    var i, j := PlacesInOrder(c.unplaced, m, n);
    FreshSeats(b, c.unplaced, i);
    FreshSeats(b, c.unplaced, j);
  }

  ghost function OrderKept(local: Option<Node>, remotes: seq<Node>, m: Node, n: Node): (Board, nat) -> bool {
    (b: Board, turns: nat) => TidyAfter(b, turns, local, remotes) &&
                              (Turn(m.region) < turns ==> SeatedInOrder(b.slots, m, n))
  }

  lemma OrderStep(d: Board, t: nat, local: Option<Node>, remotes: seq<Node>, memory: Memory, m: Node, n: Node)
    requires t < |PLACEMENT_ORDER| && Cast(local, remotes) && TidyAfter(d, t, local, remotes)
    requires m in remotes && n in remotes && m.region == n.region
    requires Newcomer(memory, m) && Newcomer(memory, n) && Precedes(m, n)
    requires Turn(m.region) < t ==> SeatedInOrder(d.slots, m, n)
    ensures Turn(m.region) <= t ==> SeatedInOrder(PlaceGroup(d, Entries(remotes, t), memory).slots, m, n)
  {
    if Turn(m.region) == t {
      RoomForGroup(t, local, remotes, d);
      EntriesExact(remotes, t);
      EntriesInOrder(remotes, t);
      GroupSeatsInOrder(d, Entries(remotes, t), memory, m, n);
    } else if Turn(m.region) < t {
      GroupExtends(d, Entries(remotes, t), memory);
      StayInOrder(d.slots, PlaceGroup(d, Entries(remotes, t), memory).slots, m, n);
    }
  }

  lemma OrderIsInductive(local: Option<Node>, remotes: seq<Node>, memory: Memory, m: Node, n: Node)
    requires Cast(local, remotes) && m in remotes && n in remotes && m.region == n.region
    requires Newcomer(memory, m) && Newcomer(memory, n) && Precedes(m, n)
    ensures OrderKept(local, remotes, m, n)(Start(local), 0)
    ensures Inductive(OrderKept(local, remotes, m, n), remotes, memory)
  {
    var inv := OrderKept(local, remotes, m, n);
    TidyIsInductive(local, remotes, memory);
    forall d: Board, t: nat | t < |PLACEMENT_ORDER| && inv(d, t)
      ensures inv(PlaceGroup(d, Entries(remotes, t), memory), t + 1)
    {
      TidyTurn(d, t, local, remotes, memory);
      OrderStep(d, t, local, remotes, memory, m, n);
    }
  }

  /** Of two newcomers of one region the one with the smaller rank, or with equal ranks the smaller ID, is seated first:
      each on its ideal cell unless that is taken by then, and else on a nearest cell free by then. */
  lemma NewcomersSeatedInOrder(nodes: seq<Node>, memory: Memory, m: Node, n: Node)
    requires |nodes| < CAPACITY && m in Others(nodes) && n in Others(nodes) && m.region == n.region
    requires Newcomer(memory, m) && Newcomer(memory, n) && Precedes(m, n)
    ensures SeatedInOrder(AssignSlots(nodes, memory), m, n)
  {
    var ordered := UniqueFrom(nodes, {});
    var local := FirstLocal(ordered);
    TheCast(nodes);
    OrderIsInductive(local, Others(nodes), memory, m, n);
    AfterInduction(OrderKept(local, Others(nodes), m, n), |PLACEMENT_ORDER|, local, Others(nodes), memory);
  }

  /** So the first of the two is no farther from its ideal cell than the other's cell is. */
  lemma FirstSeatIsNoFarther(slots: seq<Slot>, m: Node, n: Node, i: nat, j: nat)
    requires i < j < |slots| && SeatedAt(slots, i, m) && SeatedAt(slots, j, n)
    ensures Distance(m.ideal, slots[i].cell) <= Distance(m.ideal, slots[j].cell)
    ensures slots[i].cell != slots[j].cell
  {
    assert slots[i] in slots[..j] by {
      assert slots[..j][i] == slots[i];
    }
    assert SlotCells(slots[..i]) <= SlotCells(slots[..j]) by {
      assert slots[..j][..i] == slots[..i];
    }
  }

  // ----- Remembered nodes

  /** Nobody of an earlier region, and not YOU, holds the cell. */
  ghost predicate HeldEarlier(slots: seq<Slot>, cell: Cell, turn: nat) {
    exists s :: s in slots && s.cell == cell && (s.region == LOCAL || Turn(s.region) < turn)
  }

  ghost predicate Wants(memory: Memory, n: Node, cell: Cell) {
    n.id in memory && memory[n.id] == Place(cell, n.region)
  }

  lemma {:induction false} WantedIsTaken(entries: seq<Node>, memory: Memory, occupied: set<Cell>, i: nat, cell: Cell)
    requires i < |entries| && Wants(memory, entries[i], cell)
    ensures cell in ClaimRemembered(entries, memory, occupied).occupied
  {
    var k := |entries| - 1;
    if i < k {
      WantedIsTaken(entries[..k], memory, occupied, i, cell);
    }
  }

  lemma {:induction false} UnwantedStaysFree(entries: seq<Node>, memory: Memory, occupied: set<Cell>, cell: Cell)
    requires cell !in occupied && forall i :: 0 <= i < |entries| ==> !Wants(memory, entries[i], cell)
    ensures cell !in ClaimRemembered(entries, memory, occupied).occupied
  {
    if entries != [] {
      UnwantedStaysFree(entries[..|entries| - 1], memory, occupied, cell);
    }
  }

  /** The first who wants a free cell claims it. */
  lemma {:induction false} FirstClaims(entries: seq<Node>, memory: Memory, occupied: set<Cell>, i: nat, cell: Cell)
    requires cell !in occupied && i < |entries| && Wants(memory, entries[i], cell)
    requires forall h :: 0 <= h < i ==> !Wants(memory, entries[h], cell)
    ensures Slot(entries[i].id, cell, entries[i].region) in ClaimRemembered(entries, memory, occupied).slots
  {
    var k := |entries| - 1;
    if i < k {
      FirstClaims(entries[..k], memory, occupied, i, cell);
    } else {
      UnwantedStaysFree(entries[..k], memory, occupied, cell);
    }
  }

  /** Whoever wants it after another one does not. */
  lemma {:induction false} LaterDoesNotClaim(entries: seq<Node>, memory: Memory, occupied: set<Cell>, i: nat, j: nat,
                                             cell: Cell)
    requires i < j < |entries| && Wants(memory, entries[i], cell) && Wants(memory, entries[j], cell)
    requires DistinctIds(entries)
    ensures forall s :: s in ClaimRemembered(entries, memory, occupied).slots ==> s.id != entries[j].id
  {
    var k := |entries| - 1;
    var front := entries[..k];
    if j < k {
      LaterDoesNotClaim(front, memory, occupied, i, j, cell);
      assert entries[j].id != entries[k].id;
    } else {
      WantedIsTaken(front, memory, occupied, i, cell);
      ClaimCarries(front, memory, occupied);
      forall s | s in ClaimRemembered(front, memory, occupied).slots ensures s.id != entries[j].id {
        var n :| n in front && n.id == s.id && n.region == s.region;
        var h :| 0 <= h < k && front[h] == n;
        assert entries[h].id != entries[k].id;
      }
    }
  }

  ghost predicate NeverOn(slots: seq<Slot>, id: NodeId, cell: Cell) {
    forall s :: s in slots && s.id == id ==> s.cell != cell
  }

  lemma GroupKeepsOff(d: Board, entries: seq<Node>, memory: Memory, m: Node, n: Node, cell: Cell)
    requires Tidy(d.slots, d.occupied) && DistinctIds(entries) && Ids(entries) !! SlotIds(d.slots)
    requires |d.slots| + |entries| <= CAPACITY && InOrder(entries)
    requires m in entries && n in entries && Wants(memory, m, cell) && Wants(memory, n, cell) && Precedes(m, n)
    ensures NeverOn(PlaceGroup(d, entries, memory).slots, n.id, cell)
  {
    var c := ClaimRemembered(entries, memory, d.occupied);
    var i, j := PlacesInOrder(entries, m, n);
    WantedIsTaken(entries, memory, d.occupied, i, cell);
    LaterDoesNotClaim(entries, memory, d.occupied, i, j, cell);
    ClaimTidy(d.slots, d.occupied, entries, memory);
    var b := Board(d.slots + c.slots, c.occupied);
    assert SlotIds(b.slots) == SlotIds(d.slots) + SlotIds(c.slots);
    assert n.id in Ids(entries) && n.id !in SlotIds(c.slots);
    FreshKeepsOff(b, c.unplaced, n.id, cell);
  }

  lemma {:induction false} FreshKeepsOff(b: Board, unplaced: seq<Node>, id: NodeId, cell: Cell)
    requires Tidy(b.slots, b.occupied) && DistinctIds(unplaced) && Ids(unplaced) !! SlotIds(b.slots)
    requires |b.slots| + |unplaced| <= CAPACITY && cell in b.occupied && NeverOn(b.slots, id, cell)
    ensures NeverOn(PlaceFresh(b, unplaced).slots, id, cell) && cell in PlaceFresh(b, unplaced).occupied
  {
    if unplaced != [] {
      var k := |unplaced| - 1;
      var front := unplaced[..k];
      assert unplaced == front + [unplaced[k]];
      assert Ids(unplaced) == Ids(front) + {unplaced[k].id};
      FreshKeepsOff(b, front, id, cell);
      FreshTidy(b, front);
      PlaceOneSeats(PlaceFresh(b, front), unplaced[k]);
    }
  }

  ghost function LoserKeepsOff(local: Option<Node>, remotes: seq<Node>, n: Node, cell: Cell): (Board, nat) -> bool {
    (b: Board, turns: nat) => TidyAfter(b, turns, local, remotes) && NeverOn(b.slots, n.id, cell)
  }

  lemma AddedIsOfTurn(d: Board, t: nat, remotes: seq<Node>, memory: Memory, n: Node, cell: Cell)
    requires t < |PLACEMENT_ORDER| && DistinctIds(remotes) && n in remotes && t != Turn(n.region)
    requires NeverOn(d.slots, n.id, cell)
    ensures NeverOn(PlaceGroup(d, Entries(remotes, t), memory).slots, n.id, cell)
  {
    GroupCarries(d, Entries(remotes, t), memory);
    EntriesExact(remotes, t);
    forall s | s in PlaceGroup(d, Entries(remotes, t), memory).slots && s.id == n.id ensures s in d.slots {
      if s !in d.slots {
        var e :| e in Entries(remotes, t) && e.id == s.id && e.region == s.region;
        SameIdSameNode(remotes, e, n);
      }
    }
  }

  lemma StartKeepsOff(local: Option<Node>, remotes: seq<Node>, n: Node, cell: Cell)
    requires Cast(local, remotes) && n in remotes
    ensures NeverOn(Start(local).slots, n.id, cell)
  {
    assert n.id in Ids(remotes);
    assert local.Some? ==> local.value.id in LocalIds(local);
  }

  lemma LoserStep(d: Board, t: nat, local: Option<Node>, remotes: seq<Node>, memory: Memory, m: Node, n: Node,
                  cell: Cell)
    requires t < |PLACEMENT_ORDER| && Cast(local, remotes) && TidyAfter(d, t, local, remotes)
    requires m in remotes && n in remotes && m.region == n.region && Precedes(m, n)
    requires Wants(memory, m, cell) && Wants(memory, n, cell) && NeverOn(d.slots, n.id, cell)
    ensures NeverOn(PlaceGroup(d, Entries(remotes, t), memory).slots, n.id, cell)
  {
    if Turn(n.region) == t {
      RoomForGroup(t, local, remotes, d);
      EntriesExact(remotes, t);
      EntriesInOrder(remotes, t);
      GroupKeepsOff(d, Entries(remotes, t), memory, m, n, cell);
    } else {
      AddedIsOfTurn(d, t, remotes, memory, n, cell);
    }
  }

  lemma LoserIsInductive(local: Option<Node>, remotes: seq<Node>, memory: Memory, m: Node, n: Node, cell: Cell)
    requires Cast(local, remotes) && m in remotes && n in remotes && m.region == n.region && Precedes(m, n)
    requires Wants(memory, m, cell) && Wants(memory, n, cell)
    ensures LoserKeepsOff(local, remotes, n, cell)(Start(local), 0)
    ensures Inductive(LoserKeepsOff(local, remotes, n, cell), remotes, memory)
  {
    var inv := LoserKeepsOff(local, remotes, n, cell);
    TidyIsInductive(local, remotes, memory);
    StartKeepsOff(local, remotes, n, cell);
    forall d: Board, t: nat | t < |PLACEMENT_ORDER| && inv(d, t)
      ensures inv(PlaceGroup(d, Entries(remotes, t), memory), t + 1)
    {
      TidyTurn(d, t, local, remotes, memory);
      LoserStep(d, t, local, remotes, memory, m, n, cell);
    }
  }

  /** Of two remembered nodes of one region that want one cell the later one never gets it. */
  lemma LaterOneLosesCell(nodes: seq<Node>, memory: Memory, m: Node, n: Node, cell: Cell)
    requires |nodes| < CAPACITY && m in Others(nodes) && n in Others(nodes) && m.region == n.region
    requires Wants(memory, m, cell) && Wants(memory, n, cell) && Precedes(m, n)
    ensures NeverOn(AssignSlots(nodes, memory), n.id, cell)
  {
    var ordered := UniqueFrom(nodes, {});
    var local := FirstLocal(ordered);
    TheCast(nodes);
    LoserIsInductive(local, Others(nodes), memory, m, n, cell);
    AfterInduction(LoserKeepsOff(local, Others(nodes), n, cell), |PLACEMENT_ORDER|, local, Others(nodes), memory);
  }

  ghost predicate OfEarlierTurns(slots: seq<Slot>, turns: nat) {
    forall s :: s in slots ==> s.region == LOCAL || Turn(s.region) < turns
  }

  ghost predicate HeldOrKept(slots: seq<Slot>, m: Node, cell: Cell) {
    HeldEarlier(slots, cell, Turn(m.region)) || Slot(m.id, cell, m.region) in slots
  }

  ghost function WinnerKeeps(local: Option<Node>, remotes: seq<Node>, m: Node, cell: Cell): (Board, nat) -> bool {
    (b: Board, turns: nat) => TidyAfter(b, turns, local, remotes) && OfEarlierTurns(b.slots, turns) &&
                              (Turn(m.region) < turns ==> HeldOrKept(b.slots, m, cell))
  }

  lemma TurnsGrow(d: Board, t: nat, remotes: seq<Node>, memory: Memory)
    requires t < |PLACEMENT_ORDER| && DistinctIds(remotes) && OfEarlierTurns(d.slots, t)
    ensures OfEarlierTurns(PlaceGroup(d, Entries(remotes, t), memory).slots, t + 1)
  {
    GroupCarries(d, Entries(remotes, t), memory);
    EntriesExact(remotes, t);
  }

  lemma GroupGivesFirst(d: Board, t: nat, remotes: seq<Node>, memory: Memory, m: Node, cell: Cell)
    requires t < |PLACEMENT_ORDER| && DistinctIds(remotes) && Tidy(d.slots, d.occupied) && OfEarlierTurns(d.slots, t)
    requires m in remotes && Turn(m.region) == t && Wants(memory, m, cell)
    requires forall n :: n in remotes && n.region == m.region && Wants(memory, n, cell) && n != m ==> Precedes(m, n)
    ensures HeldOrKept(PlaceGroup(d, Entries(remotes, t), memory).slots, m, cell)
  {
    var entries := Entries(remotes, t);
    GroupCarries(d, entries, memory);
    EntriesExact(remotes, t);
    EntriesInOrder(remotes, t);
    if cell in d.occupied {
      var s :| s in d.slots && s.cell == cell;
      assert s in PlaceGroup(d, entries, memory).slots;
    } else {
      var i :| 0 <= i < |entries| && entries[i] == m;
      forall h | 0 <= h < i ensures !Wants(memory, entries[h], cell) {
        assert entries[h] in entries && Precedes(entries[h], m);
        assert PLACEMENT_ORDER[Turn(entries[h].region)] == PLACEMENT_ORDER[Turn(m.region)];
      }
      FirstClaims(entries, memory, d.occupied, i, cell);
    }
  }

  lemma WinnerStep(d: Board, t: nat, remotes: seq<Node>, memory: Memory, m: Node, cell: Cell)
    requires t < |PLACEMENT_ORDER| && DistinctIds(remotes) && Tidy(d.slots, d.occupied) && OfEarlierTurns(d.slots, t)
    requires m in remotes && Wants(memory, m, cell) && (Turn(m.region) < t ==> HeldOrKept(d.slots, m, cell))
    requires forall n :: n in remotes && n.region == m.region && Wants(memory, n, cell) && n != m ==> Precedes(m, n)
    ensures Turn(m.region) <= t ==> HeldOrKept(PlaceGroup(d, Entries(remotes, t), memory).slots, m, cell)
  {
    if Turn(m.region) == t {
      GroupGivesFirst(d, t, remotes, memory, m, cell);
    } else if Turn(m.region) < t {
      GroupCarries(d, Entries(remotes, t), memory);
    }
  }

  lemma WinnerIsInductive(local: Option<Node>, remotes: seq<Node>, memory: Memory, m: Node, cell: Cell)
    requires Cast(local, remotes) && m in remotes && Wants(memory, m, cell)
    requires forall n :: n in remotes && n.region == m.region && Wants(memory, n, cell) && n != m ==> Precedes(m, n)
    ensures WinnerKeeps(local, remotes, m, cell)(Start(local), 0)
    ensures Inductive(WinnerKeeps(local, remotes, m, cell), remotes, memory)
  {
    var inv := WinnerKeeps(local, remotes, m, cell);
    TidyIsInductive(local, remotes, memory);
    forall d: Board, t: nat | t < |PLACEMENT_ORDER| && inv(d, t)
      ensures inv(PlaceGroup(d, Entries(remotes, t), memory), t + 1)
    {
      TidyTurn(d, t, local, remotes, memory);
      TurnsGrow(d, t, remotes, memory);
      WinnerStep(d, t, remotes, memory, m, cell);
    }
  }

  /** The first of those in a region who want a cell keeps it, unless YOU or a node of an earlier region holds it. */
  lemma FirstOneKeepsCell(nodes: seq<Node>, memory: Memory, m: Node, cell: Cell)
    requires |nodes| < CAPACITY && m in Others(nodes) && Wants(memory, m, cell)
    requires forall n :: n in Others(nodes) && n.region == m.region && Wants(memory, n, cell) && n != m ==>
               Precedes(m, n)
    ensures HeldOrKept(AssignSlots(nodes, memory), m, cell)
  {
    var ordered := UniqueFrom(nodes, {});
    var local := FirstLocal(ordered);
    TheCast(nodes);
    WinnerIsInductive(local, Others(nodes), memory, m, cell);
    AfterInduction(WinnerKeeps(local, Others(nodes), m, cell), |PLACEMENT_ORDER|, local, Others(nodes), memory);
  }
}
