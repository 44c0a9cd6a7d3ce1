/** What assign_grid_slots guarantees: everyone is placed once, no two on the same slot, and a
    remembered cell is kept as long as nobody placed earlier was placed afresh. */
module SlotProperties {
  import opened Common
  import opened Sorting
  import opened Grid
  import opened Slots

  // ----- Who takes part

  function SlotIds(slots: seq<Slot>): set<NodeId> {
    set s | s in slots :: s.id
  }

  function SlotCells(slots: seq<Slot>): set<Cell> {
    set s | s in slots :: s.cell
  }

  ghost predicate DistinctIds(nodes: seq<Node>) {
    forall i, j :: 0 <= i < j < |nodes| ==> nodes[i].id != nodes[j].id
  }

  lemma {:induction false} UniqueIds(nodes: seq<Node>, seen: set<NodeId>)
    ensures DistinctIds(UniqueFrom(nodes, seen))
    ensures Ids(UniqueFrom(nodes, seen)) == Ids(nodes) - seen
    ensures forall n :: n in UniqueFrom(nodes, seen) ==> n in nodes
    ensures |UniqueFrom(nodes, seen)| <= |nodes|
  {
    if nodes != [] {
      assert nodes == [nodes[0]] + nodes[1..];
      assert Ids(nodes) == {nodes[0].id} + Ids(nodes[1..]);
      if nodes[0].id in seen {
        UniqueIds(nodes[1..], seen);
      } else {
        UniqueIds(nodes[1..], seen + {nodes[0].id});
        var tail := UniqueFrom(nodes[1..], seen + {nodes[0].id});
        assert Ids([nodes[0]] + tail) == {nodes[0].id} + Ids(tail);
        forall j | 0 <= j < |tail| ensures tail[j].id != nodes[0].id {
          assert tail[j].id in Ids(tail);
        }
      }
    }
  }

  lemma {:induction false} LocalIsMember(nodes: seq<Node>)
    ensures match FirstLocal(nodes)
      case Some(n) => n in nodes && n.isLocal
      case None => forall n :: n in nodes ==> !n.isLocal
  {
    if nodes != [] {
      assert nodes == [nodes[0]] + nodes[1..];
      LocalIsMember(nodes[1..]);
    }
  }

  lemma KeptFirst(nodes: seq<Node>, kept: seq<Node>)
    requires nodes != [] && DistinctIds(nodes) && DistinctIds(kept) && forall n :: n in kept ==> n in nodes[1..]
    ensures DistinctIds([nodes[0]] + kept)
    ensures forall n :: n in nodes[1..] ==> n.id != nodes[0].id
  {
    forall n | n in nodes[1..] ensures n.id != nodes[0].id {
      var i :| 0 <= i < |nodes[1..]| && nodes[1..][i] == n;
      assert nodes[i + 1] == n;
    }
  }

  lemma {:induction false} RemotesExact(nodes: seq<Node>, local: Option<Node>)
    requires DistinctIds(nodes)
    ensures DistinctIds(Remotes(nodes, local)) && |Remotes(nodes, local)| <= |nodes|
    ensures forall n :: n in Remotes(nodes, local) <==> n in nodes && (local.Some? ==> n.id != local.value.id)
  {
    if nodes != [] {
      assert nodes == [nodes[0]] + nodes[1..];
      RemotesExact(nodes[1..], local);
      KeptFirst(nodes, Remotes(nodes[1..], local));
    }
  }

  lemma {:induction false} GroupExact(nodes: seq<Node>, region: Region)
    requires DistinctIds(nodes)
    ensures DistinctIds(Group(nodes, region))
    ensures forall n :: n in Group(nodes, region) <==> n in nodes && n.region == region
  {
    if nodes != [] {
      assert nodes == [nodes[0]] + nodes[1..];
      GroupExact(nodes[1..], region);
      KeptFirst(nodes, Group(nodes[1..], region));
    }
  }

  lemma EntriesExact(remotes: seq<Node>, turn: nat)
    requires turn < |PLACEMENT_ORDER| && DistinctIds(remotes)
    ensures DistinctIds(Entries(remotes, turn))
    ensures forall n :: n in Entries(remotes, turn) <==> n in remotes && Turn(n.region) == turn
  {
    var group := Group(remotes, PLACEMENT_ORDER[turn]);
    GroupExact(remotes, PLACEMENT_ORDER[turn]);
    SortPermutes(group, RanksFirst);
    SortNoDup(group, RanksFirst);
    var entries := Entries(remotes, turn);
    forall i, j | 0 <= i < j < |entries| ensures entries[i].id != entries[j].id {
      assert entries[i] in group && entries[j] in group;
    }
    forall n ensures n in remotes && n.region == PLACEMENT_ORDER[turn] <==> n in remotes && Turn(n.region) == turn {
    }
  }

  // ----- A tidy board: slots with distinct IDs on distinct cells, and exactly those cells claimed

  const CAPACITY := 8191 * 8191

  ghost predicate Tidy(slots: seq<Slot>, occupied: set<Cell>) {
    && (forall i, j :: 0 <= i < j < |slots| ==> slots[i].id != slots[j].id && slots[i].cell != slots[j].cell)
    && occupied == SlotCells(slots)
  }

  lemma {:induction false} TidySize(slots: seq<Slot>, occupied: set<Cell>)
    requires Tidy(slots, occupied)
    ensures |SlotIds(slots)| == |slots| == |occupied|
  {
    if slots != [] {
      var n := |slots| - 1;
      assert slots == slots[..n] + [slots[n]];
      assert SlotIds(slots) == SlotIds(slots[..n]) + {slots[n].id};
      assert SlotCells(slots) == SlotCells(slots[..n]) + {slots[n].cell};
      TidySize(slots[..n], SlotCells(slots[..n]));
    }
  }

  lemma TidyAppend(slots: seq<Slot>, occupied: set<Cell>, s: Slot)
    requires Tidy(slots, occupied) && s.id !in SlotIds(slots) && s.cell !in occupied
    ensures Tidy(slots + [s], occupied + {s.cell})
    ensures SlotIds(slots + [s]) == SlotIds(slots) + {s.id}
  {
    forall i | 0 <= i < |slots| ensures slots[i].id != s.id && slots[i].cell != s.cell {
      assert slots[i].id in SlotIds(slots) && slots[i].cell in SlotCells(slots);
    }
  }

  lemma {:induction false} ClaimTidy(slots: seq<Slot>, occupied: set<Cell>, entries: seq<Node>, memory: Memory)
    requires Tidy(slots, occupied) && DistinctIds(entries) && Ids(entries) !! SlotIds(slots)
    ensures var c := ClaimRemembered(entries, memory, occupied);
      && Tidy(slots + c.slots, c.occupied)
      && DistinctIds(c.unplaced)
      && SlotIds(c.slots) !! Ids(c.unplaced)
      && SlotIds(c.slots) + Ids(c.unplaced) == Ids(entries)
      && |c.slots| + |c.unplaced| == |entries|
  {
    if entries == [] {
      assert slots + [] == slots;
    } else {
      var k := |entries| - 1;
      assert entries == entries[..k] + [entries[k]];
      assert Ids(entries) == Ids(entries[..k]) + {entries[k].id};
      ClaimTidy(slots, occupied, entries[..k], memory);
      ClaimOneTidy(slots, ClaimRemembered(entries[..k], memory, occupied), entries[k], memory, Ids(entries[..k]));
    }
  }

  lemma ClaimOneTidy(slots: seq<Slot>, d: Claims, n: Node, memory: Memory, ids: set<NodeId>)
    requires Tidy(slots + d.slots, d.occupied) && DistinctIds(d.unplaced) && SlotIds(d.slots) !! Ids(d.unplaced)
    requires SlotIds(d.slots) + Ids(d.unplaced) == ids && n.id !in ids && n.id !in SlotIds(slots)
    ensures var c := ClaimOne(d, n, memory);
      && Tidy(slots + c.slots, c.occupied)
      && DistinctIds(c.unplaced)
      && SlotIds(c.slots) !! Ids(c.unplaced)
      && SlotIds(c.slots) + Ids(c.unplaced) == ids + {n.id}
      && |c.slots| + |c.unplaced| == |d.slots| + |d.unplaced| + 1
  {
    var c := ClaimOne(d, n, memory);
    if Remembers(memory, n) && memory[n.id].cell !in d.occupied {
      var s := Slot(n.id, memory[n.id].cell, n.region);
      assert SlotIds(slots + d.slots) == SlotIds(slots) + SlotIds(d.slots);
      TidyAppend(slots + d.slots, d.occupied, s);
      assert slots + c.slots == (slots + d.slots) + [s];
      assert SlotIds(c.slots) == SlotIds(d.slots) + {n.id};
    } else {
      assert Ids(c.unplaced) == Ids(d.unplaced) + {n.id};
      forall i | 0 <= i < |d.unplaced| ensures d.unplaced[i].id != n.id {
        assert d.unplaced[i].id in Ids(d.unplaced);
      }
    }
  }

  lemma PlaceOneTidy(b: Board, n: Node)
    requires Tidy(b.slots, b.occupied) && n.id !in SlotIds(b.slots) && |b.slots| < CAPACITY
    ensures var r := PlaceOne(b, n);
      Tidy(r.slots, r.occupied) && SlotIds(r.slots) == SlotIds(b.slots) + {n.id} && |r.slots| == |b.slots| + 1
  {
    TidySize(b.slots, b.occupied);
    SlotForIsFree(n.ideal, b.occupied);
    TidyAppend(b.slots, b.occupied, Slot(n.id, SlotFor(n.ideal, b.occupied), n.region));
  }

  lemma {:induction false} FreshTidy(b: Board, unplaced: seq<Node>)
    requires Tidy(b.slots, b.occupied) && DistinctIds(unplaced) && Ids(unplaced) !! SlotIds(b.slots)
    requires |b.slots| + |unplaced| <= CAPACITY
    ensures var r := PlaceFresh(b, unplaced);
      && Tidy(r.slots, r.occupied)
      && SlotIds(r.slots) == SlotIds(b.slots) + Ids(unplaced)
      && |r.slots| == |b.slots| + |unplaced|
  {
    if unplaced != [] {
      var k := |unplaced| - 1;
      assert unplaced == unplaced[..k] + [unplaced[k]];
      assert Ids(unplaced) == Ids(unplaced[..k]) + {unplaced[k].id};
      FreshTidy(b, unplaced[..k]);
      PlaceOneTidy(PlaceFresh(b, unplaced[..k]), unplaced[k]);
    }
  }

  lemma GroupTidy(b: Board, entries: seq<Node>, memory: Memory)
    requires Tidy(b.slots, b.occupied) && DistinctIds(entries) && Ids(entries) !! SlotIds(b.slots)
    requires |b.slots| + |entries| <= CAPACITY
    ensures var r := PlaceGroup(b, entries, memory);
      Tidy(r.slots, r.occupied) && SlotIds(r.slots) == SlotIds(b.slots) + Ids(entries)
  {
    ClaimTidy(b.slots, b.occupied, entries, memory);
    var c := ClaimRemembered(entries, memory, b.occupied);
    assert SlotIds(b.slots + c.slots) == SlotIds(b.slots) + SlotIds(c.slots);
    FreshTidy(Board(b.slots + c.slots, c.occupied), c.unplaced);
  }

  // ----- Slots carry their node's own ID and region, and stay once placed

  ghost predicate Carries(s: Slot, nodes: seq<Node>) {
    exists n :: n in nodes && n.id == s.id && n.region == s.region
  }

  lemma {:induction false} ClaimCarries(entries: seq<Node>, memory: Memory, occupied: set<Cell>)
    ensures forall s :: s in ClaimRemembered(entries, memory, occupied).slots ==> Carries(s, entries)
    ensures forall n :: n in ClaimRemembered(entries, memory, occupied).unplaced ==> n in entries
  {
    if entries != [] {
      var k := |entries| - 1;
      assert entries == entries[..k] + [entries[k]];
      ClaimCarries(entries[..k], memory, occupied);
    }
  }

  lemma {:induction false} FreshCarries(b: Board, unplaced: seq<Node>)
    ensures forall s :: s in PlaceFresh(b, unplaced).slots ==> s in b.slots || Carries(s, unplaced)
    ensures forall s :: s in b.slots ==> s in PlaceFresh(b, unplaced).slots
  {
    if unplaced != [] {
      var k := |unplaced| - 1;
      FreshCarries(b, unplaced[..k]);
      var d := PlaceFresh(b, unplaced[..k]);
      OneCarries(b.slots, d.slots, PlaceOne(d, unplaced[k]).slots[|d.slots|], unplaced, k);
    }
  }

  lemma OneCarries(first: seq<Slot>, d: seq<Slot>, s: Slot, unplaced: seq<Node>, k: nat)
    requires |unplaced| == k + 1 && s.id == unplaced[k].id && s.region == unplaced[k].region
    requires forall t :: t in d ==> t in first || Carries(t, unplaced[..k])
    ensures forall t :: t in d + [s] ==> t in first || Carries(t, unplaced)
  {
    assert unplaced[k] in unplaced;
    forall t | t in d && Carries(t, unplaced[..k]) ensures Carries(t, unplaced) {
      var n :| n in unplaced[..k] && n.id == t.id && n.region == t.region;
      assert n in unplaced;
    }
  }

  lemma GroupCarries(b: Board, entries: seq<Node>, memory: Memory)
    ensures forall s :: s in PlaceGroup(b, entries, memory).slots ==> s in b.slots || Carries(s, entries)
    ensures forall s :: s in b.slots ==> s in PlaceGroup(b, entries, memory).slots
    ensures forall s ::
        s in ClaimRemembered(entries, memory, b.occupied).slots ==> s in PlaceGroup(b, entries, memory).slots
  {
    var c := ClaimRemembered(entries, memory, b.occupied);
    ClaimCarries(entries, memory, b.occupied);
    FreshCarries(Board(b.slots + c.slots, c.occupied), c.unplaced);
    forall s | s in PlaceGroup(b, entries, memory).slots && s !in b.slots ensures Carries(s, entries) {
      if s !in c.slots {
        assert Carries(s, c.unplaced);
      }
    }
  }

  // ----- All groups

  function RegionIds(remotes: seq<Node>, turns: nat): set<NodeId> {
    set n | n in remotes && Turn(n.region) < turns :: n.id
  }

  function LocalIds(local: Option<Node>): set<NodeId> {
    if local.Some? then {local.value.id} else {}
  }

  ghost predicate Cast(local: Option<Node>, remotes: seq<Node>) {
    DistinctIds(remotes) && LocalIds(local) !! Ids(remotes) && |remotes| < CAPACITY
  }

  lemma {:induction false} IdsSize(nodes: seq<Node>)
    ensures |Ids(nodes)| <= |nodes|
    ensures DistinctIds(nodes) ==> |Ids(nodes)| == |nodes|
  {
    if nodes != [] {
      var k := |nodes| - 1;
      assert nodes == nodes[..k] + [nodes[k]];
      assert Ids(nodes) == Ids(nodes[..k]) + {nodes[k].id};
      IdsSize(nodes[..k]);
    }
  }

  lemma SameIdSameNode(remotes: seq<Node>, m: Node, n: Node)
    requires DistinctIds(remotes) && m in remotes && n in remotes && m.id == n.id
    ensures m == n
  {
  }

  lemma EntriesIds(turn: nat, remotes: seq<Node>)
    requires turn < |PLACEMENT_ORDER| && DistinctIds(remotes)
    ensures DistinctIds(Entries(remotes, turn))
    ensures Ids(Entries(remotes, turn)) !! RegionIds(remotes, turn)
    ensures Ids(Entries(remotes, turn)) <= Ids(remotes)
    ensures RegionIds(remotes, turn + 1) == RegionIds(remotes, turn) + Ids(Entries(remotes, turn))
  {
    var entries := Entries(remotes, turn);
    EntriesExact(remotes, turn);
    forall id | id in Ids(entries) ensures id !in RegionIds(remotes, turn) {
      var n :| n in entries && n.id == id;
      if id in RegionIds(remotes, turn) {
        var m :| m in remotes && Turn(m.region) < turn && m.id == id;
        SameIdSameNode(remotes, m, n);
      }
    }
    forall id ensures id in RegionIds(remotes, turn + 1) <==> id in RegionIds(remotes, turn) + Ids(entries) {
      if id in RegionIds(remotes, turn + 1) {
        var n :| n in remotes && Turn(n.region) < turn + 1 && n.id == id;
        assert Turn(n.region) == turn ==> n in entries;
      }
    }
  }

  lemma RoomForGroup(turn: nat, local: Option<Node>, remotes: seq<Node>, b: Board)
    requires turn < |PLACEMENT_ORDER| && Cast(local, remotes)
    requires Tidy(b.slots, b.occupied) && SlotIds(b.slots) == LocalIds(local) + RegionIds(remotes, turn)
    ensures Ids(Entries(remotes, turn)) !! SlotIds(b.slots)
    ensures |b.slots| + |Entries(remotes, turn)| <= CAPACITY
  {
    var entries := Entries(remotes, turn);
    EntriesIds(turn, remotes);
    TidySize(b.slots, b.occupied);
    IdsSize(entries);
    IdsSize(remotes);
    assert RegionIds(remotes, turn) <= Ids(remotes);
    SubsetSize(SlotIds(b.slots) + Ids(entries), LocalIds(local) + Ids(remotes));
    assert |LocalIds(local) + Ids(remotes)| == |LocalIds(local)| + |Ids(remotes)|;
    assert |SlotIds(b.slots) + Ids(entries)| == |SlotIds(b.slots)| + |Ids(entries)|;
  }

  ghost predicate TidyAfter(b: Board, turns: nat, local: Option<Node>, remotes: seq<Node>) {
    Tidy(b.slots, b.occupied) && SlotIds(b.slots) == LocalIds(local) + RegionIds(remotes, turns)
  }

  /** Whatever board a turn starts from, it keeps `inv`. */
  ghost predicate Inductive(inv: (Board, nat) -> bool, remotes: seq<Node>, memory: Memory) {
    forall d: Board, t: nat :: t < |PLACEMENT_ORDER| && inv(d, t) ==>
      inv(PlaceGroup(d, Entries(remotes, t), memory), t + 1)
  }

  lemma {:induction false} AfterInduction(inv: (Board, nat) -> bool, turns: nat, local: Option<Node>,
                                          remotes: seq<Node>, memory: Memory)
    requires turns <= |PLACEMENT_ORDER| && inv(Start(local), 0) && Inductive(inv, remotes, memory)
    ensures inv(After(turns, local, remotes, memory), turns)
  {
    if turns > 0 {
      AfterInduction(inv, turns - 1, local, remotes, memory);
    }
  }

  lemma TidyTurn(d: Board, turn: nat, local: Option<Node>, remotes: seq<Node>, memory: Memory)
    requires turn < |PLACEMENT_ORDER| && Cast(local, remotes) && TidyAfter(d, turn, local, remotes)
    ensures TidyAfter(PlaceGroup(d, Entries(remotes, turn), memory), turn + 1, local, remotes)
  {
    RoomForGroup(turn, local, remotes, d);
    EntriesIds(turn, remotes);
    GroupTidy(d, Entries(remotes, turn), memory);
  }

  ghost function TidyAt(local: Option<Node>, remotes: seq<Node>): (Board, nat) -> bool {
    (b: Board, turns: nat) => TidyAfter(b, turns, local, remotes)
  }

  lemma TidyIsInductive(local: Option<Node>, remotes: seq<Node>, memory: Memory)
    requires Cast(local, remotes)
    ensures TidyAt(local, remotes)(Start(local), 0) && Inductive(TidyAt(local, remotes), remotes, memory)
  {
    var inv := TidyAt(local, remotes);
    forall d: Board, t: nat | t < |PLACEMENT_ORDER| && inv(d, t)
      ensures inv(PlaceGroup(d, Entries(remotes, t), memory), t + 1)
    {
      TidyTurn(d, t, local, remotes, memory);
    }
  }

  lemma AfterTidy(turns: nat, local: Option<Node>, remotes: seq<Node>, memory: Memory)
    requires turns <= |PLACEMENT_ORDER| && Cast(local, remotes)
    ensures TidyAfter(After(turns, local, remotes, memory), turns, local, remotes)
  {
    TidyIsInductive(local, remotes, memory);
    AfterInduction(TidyAt(local, remotes), turns, local, remotes, memory);
  }

  lemma SlotCarries(d: Board, turn: nat, remotes: seq<Node>, memory: Memory, s: Slot)
    requires turn < |PLACEMENT_ORDER| && DistinctIds(remotes)
    ensures var b := PlaceGroup(d, Entries(remotes, turn), memory);
      (s in d.slots ==> s in b.slots) && (s in b.slots ==> s in d.slots || Carries(s, remotes))
  {
    var entries := Entries(remotes, turn);
    var b := PlaceGroup(d, entries, memory);
    EntriesExact(remotes, turn);
    GroupCarries(d, entries, memory);
    if s in b.slots && s !in d.slots {
      var n :| n in entries && n.id == s.id && n.region == s.region;
      assert n in remotes;
    }
  }

  ghost function CarriedAt(local: Option<Node>, remotes: seq<Node>, s: Slot): (Board, nat) -> bool {
    (b: Board, _) => (s in Start(local).slots ==> s in b.slots) &&
                     (s in b.slots ==> s in Start(local).slots || Carries(s, remotes))
  }

  lemma CarriedIsInductive(local: Option<Node>, remotes: seq<Node>, memory: Memory, s: Slot)
    requires DistinctIds(remotes)
    ensures CarriedAt(local, remotes, s)(Start(local), 0) && Inductive(CarriedAt(local, remotes, s), remotes, memory)
  {
    var inv := CarriedAt(local, remotes, s);
    forall d: Board, t: nat | t < |PLACEMENT_ORDER| && inv(d, t)
      ensures inv(PlaceGroup(d, Entries(remotes, t), memory), t + 1)
    {
      SlotCarries(d, t, remotes, memory, s);
    }
  }

  lemma AfterCarries(turns: nat, local: Option<Node>, remotes: seq<Node>, memory: Memory)
    requires turns <= |PLACEMENT_ORDER| && DistinctIds(remotes)
    ensures var b := After(turns, local, remotes, memory);
      && (forall s :: s in Start(local).slots ==> s in b.slots)
      && (forall s :: s in b.slots ==> s in Start(local).slots || Carries(s, remotes))
  {
    var b := After(turns, local, remotes, memory);
    forall s ensures (s in Start(local).slots ==> s in b.slots) &&
                     (s in b.slots ==> s in Start(local).slots || Carries(s, remotes)) {
      CarriedIsInductive(local, remotes, memory, s);
      AfterInduction(CarriedAt(local, remotes, s), turns, local, remotes, memory);
    }
  }

  lemma {:induction false} SlotsStay(early: nat, late: nat, local: Option<Node>, remotes: seq<Node>, memory: Memory)
    requires early <= late <= |PLACEMENT_ORDER|
    ensures forall s ::
        s in After(early, local, remotes, memory).slots ==> s in After(late, local, remotes, memory).slots
    decreases late
  {
    if early < late {
      SlotsStay(early, late - 1, local, remotes, memory);
      GroupStays(After(early, local, remotes, memory), After(late - 1, local, remotes, memory),
                 After(late, local, remotes, memory), Entries(remotes, late - 1), memory);
    }
  }

  lemma GroupStays(first: Board, d: Board, b: Board, entries: seq<Node>, memory: Memory)
    requires (forall s :: s in first.slots ==> s in d.slots) && b == PlaceGroup(d, entries, memory)
    ensures forall s :: s in first.slots ==> s in b.slots
  {
    GroupCarries(d, entries, memory);
  }

  /** The nodes AssignSlots works on: one per ID, the first local one apart. */
  lemma TheCast(nodes: seq<Node>)
    requires |nodes| < CAPACITY
    ensures var ordered := UniqueFrom(nodes, {}); var local := FirstLocal(ordered);
      && Cast(local, Remotes(ordered, local))
      && LocalIds(local) + Ids(Remotes(ordered, local)) == Ids(nodes)
      && DistinctIds(ordered)
  {
    var ordered := UniqueFrom(nodes, {});
    var local := FirstLocal(ordered);
    UniqueIds(nodes, {});
    LocalIsMember(ordered);
    RemotesExact(ordered, local);
    LocalOrRemote(ordered);
  }

  lemma LocalOrRemote(ordered: seq<Node>)
    requires DistinctIds(ordered)
    ensures var local := FirstLocal(ordered);
      LocalIds(local) + Ids(Remotes(ordered, local)) == Ids(ordered)
  {
    var local := FirstLocal(ordered);
    LocalIsMember(ordered);
    RemotesExact(ordered, local);
    forall id | id in Ids(ordered) ensures id in LocalIds(local) + Ids(Remotes(ordered, local)) {
      var n :| n in ordered && n.id == id;
    }
  }

  /** Every node is placed exactly once, on a slot nobody else has; YOU is placed at the origin. */
  lemma AssignmentIsInjective(nodes: seq<Node>, memory: Memory)
    requires |nodes| < CAPACITY
    ensures var slots := AssignSlots(nodes, memory);
      && SlotIds(slots) == Ids(nodes)
      && (forall i, j :: 0 <= i < j < |slots| ==> slots[i].id != slots[j].id && slots[i].cell != slots[j].cell)
      && (var local := FirstLocal(UniqueFrom(nodes, {}));
          local.Some? ==> Slot(local.value.id, ORIGIN, LOCAL) in slots)
  {
    var ordered := UniqueFrom(nodes, {});
    var local := FirstLocal(ordered);
    var remotes := Remotes(ordered, local);
    TheCast(nodes);
    AfterTidy(|PLACEMENT_ORDER|, local, remotes, memory);
    AfterCarries(|PLACEMENT_ORDER|, local, remotes, memory);
    assert RegionIds(remotes, |PLACEMENT_ORDER|) == Ids(remotes);
    assert local.Some? ==> Slot(local.value.id, ORIGIN, LOCAL) in Start(local).slots;
  }
}
