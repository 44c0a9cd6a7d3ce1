/** What profiles promise: one row per packet and profile, no effect of one profile's writes on another
    profile's reads, and history that follows a rename. */
module ChatProfiles {
  import opened Common
  import opened Sorting
  import opened ChatOldest
  import opened ChatRows
  import opened ChatPaging
  import opened ChatReading
  import opened ChatTable
  import opened ProfileKeys

  // ----- One row per packet

  function CopyOf(identity: Identity): Row -> bool {
    (r: Row) => IdentityOf(r) == Some(identity)
  }

  function Copies(rows: seq<Row>, identity: Identity): nat {
    |Filter(rows, CopyOf(identity))|
  }

  lemma {:induction false} IndexAllowsOneCopy(rows: seq<Row>, identity: Identity)
    requires IndexHolds(rows)
    ensures Copies(rows, identity) == if Taken(rows, Some(identity)) then 1 else 0
  {
    if rows != [] {
      var front, last := rows[..|rows| - 1], rows[|rows| - 1];
      IndexAllowsOneCopy(front, identity);
      if IdentityOf(last) == Some(identity) {
        forall i | 0 <= i < |front| ensures IdentityOf(front[i]) != Some(identity) {
          assert !SameIdentity(rows[i], last);
        }
      } else if Taken(rows, Some(identity)) {
        var i :| 0 <= i < |rows| && IdentityOf(rows[i]) == Some(identity);
        assert front[i] == rows[i];
      }
    }
  }

  function ReceiveAll(t: Tables, ns: Namespace, ps: seq<Packet>): Tables {
    if ps == [] then t else AddIncoming(ReceiveAll(t, ns, ps[..|ps| - 1]), ns, ps[|ps| - 1]).0
  }

  lemma TakenAfterAdd(t: Tables, ns: Namespace, p: Packet)
    requires p.packetId.Some?
    ensures Taken(AddIncoming(t, ns, p).0.rows, PacketIdentity(ns, p))
  {
    var after := AddIncoming(t, ns, p).0.rows;
    if !Taken(t.rows, PacketIdentity(ns, p)) {
      assert IdentityOf(after[|after| - 1]) == PacketIdentity(ns, p);
    }
  }

  lemma TakenStays(rows: seq<Row>, longer: seq<Row>, identity: Option<Identity>)
    requires rows <= longer && Taken(rows, identity)
    ensures Taken(longer, identity)
  {
    var i :| 0 <= i < |rows| && IdentityOf(rows[i]) == identity;
    assert longer[i] == rows[i];
  }

  /** Whatever is delivered, however often and in whatever order, each identified packet ends with exactly one
      row under the bound profile, and rows already stored are never touched. */
  lemma {:induction false} DeliveredOnce(t: Tables, key: string, ps: seq<Packet>, p: Packet)
    requires Sound(t) && p in ps && p.packetId.Some?
    ensures var after := ReceiveAll(t, Bound(Some(key)), ps);
      Sound(after) && t.rows <= after.rows &&
      Copies(after.rows, PacketIdentity(Bound(Some(key)), p).value) == 1
  {
    DeliveriesKeep(t, Bound(Some(key)), ps, p);
    IndexAllowsOneCopy(ReceiveAll(t, Bound(Some(key)), ps).rows, PacketIdentity(Bound(Some(key)), p).value);
  }

  lemma {:induction false} DeliveriesKeep(t: Tables, ns: Namespace, ps: seq<Packet>, p: Packet)
    requires Sound(t) && p.packetId.Some?
    ensures var after := ReceiveAll(t, ns, ps);
      Sound(after) && t.rows <= after.rows && (p in ps ==> Taken(after.rows, PacketIdentity(ns, p)))
  {
    if ps != [] {
      var front, last := ps[..|ps| - 1], ps[|ps| - 1];
      DeliveriesKeep(t, ns, front, p);
      assert ps == front + [last];
      DeliveryKeeps(ReceiveAll(t, ns, front), ns, last, p, t.rows);
    }
  }

  lemma DeliveryKeeps(t: Tables, ns: Namespace, last: Packet, p: Packet, first: seq<Row>)
    requires Sound(t) && first <= t.rows && p.packetId.Some?
    ensures var after := AddIncoming(t, ns, last).0;
      Sound(after) && first <= after.rows &&
      (p == last || Taken(t.rows, PacketIdentity(ns, p)) ==> Taken(after.rows, PacketIdentity(ns, p)))
  {
    AddIncomingSound(t, ns, last);
    if p == last {
      TakenAfterAdd(t, ns, p);
    } else if Taken(t.rows, PacketIdentity(ns, p)) {
      TakenStays(t.rows, AddIncoming(t, ns, last).0.rows, PacketIdentity(ns, p));
    }
  }

  /** The rows of one profile are stamped with its node half. */
  ghost predicate HomeHolds(rows: seq<Row>, key: string) {
    forall r :: r in rows && r.profileKey == Some(key) ==> r.localNodeId == HomeOf(Some(key))
  }

  lemma {:induction false} FirstDuplicateIs(rows: seq<Row>, ns: Namespace, p: Packet)
    ensures FirstDuplicate(rows, ns, p).Some? <==> exists r :: r in rows && IsDuplicate(ns, p, r)
    ensures FirstDuplicate(rows, ns, p).Some? ==>
            FirstDuplicate(rows, ns, p).value in rows && IsDuplicate(ns, p, FirstDuplicate(rows, ns, p).value)
  {
    if rows != [] {
      FirstDuplicateIs(rows[1..], ns, p);
      assert rows == [rows[0]] + rows[1..];
    }
  }

  /** A refused insert stores nothing. It is recognised as a repeat exactly when some row has the packet's sender, ID,
      channel, conversation and profile; then the answer is such a row. */
  lemma RefusalIsAnsweredExactly(t: Tables, ns: Namespace, p: Packet)
    requires Taken(t.rows, PacketIdentity(ns, p))
    ensures AddIncoming(t, ns, p).0 == t
    ensures AddIncoming(t, ns, p).1.Duplicate? <==> exists r :: r in t.rows && IsDuplicate(ns, p, r)
    ensures AddIncoming(t, ns, p).1.Duplicate? ==>
            exists r :: r in t.rows && IsDuplicate(ns, p, r) && r.id == AddIncoming(t, ns, p).1.id
    ensures AddIncoming(t, ns, p).1.Duplicate? || AddIncoming(t, ns, p).1.NotStored?
  {
    FirstDuplicateIs(t.rows, ns, p);
  }

  /** Under a resolved profile whose rows are all stamped with its own node half, the answer is the very row that holds
      the packet, unless the two spell "no conversation" differently (a missing and an empty conversation ID share an
      index entry). */
  lemma RepeatIsRecognised(t: Tables, key: string, p: Packet, r: Row)
    requires Sound(t) && HomeHolds(t.rows, key) && key != ""
    requires r in t.rows && IdentityOf(r).Some? && IdentityOf(r) == PacketIdentity(Bound(Some(key)), p)
    ensures AddIncoming(t, Bound(Some(key)), p) == (t, if r.dmNodeId == p.dmNodeId then Duplicate(r.id) else NotStored)
  {
    var ns := Bound(Some(key));
    var i :| 0 <= i < |t.rows| && t.rows[i] == r;
    FirstDuplicateIs(t.rows, ns, p);
    forall x | x in t.rows && IsDuplicate(ns, p, x) ensures x == r {
      DuplicateHasIdentity(t, key, p, x, r);
    }
    if r.dmNodeId == p.dmNodeId {
      assert IsDuplicate(ns, p, r);
    }
  }

  lemma DuplicateHasIdentity(t: Tables, key: string, p: Packet, x: Row, r: Row)
    requires Sound(t) && HomeHolds(t.rows, key) && x in t.rows && r in t.rows
    requires IsDuplicate(Bound(Some(key)), p, x) && IdentityOf(r) == PacketIdentity(Bound(Some(key)), p)
    ensures x == r
  {
    var i :| 0 <= i < |t.rows| && t.rows[i] == x;
    var j :| 0 <= j < |t.rows| && t.rows[j] == r;
    assert x.localNodeId == HomeOf(Some(key));
    assert SameIdentity(x, r);
  }

  /** While the profile is unresolved no look-up matches, so every repeat fails. */
  lemma UnresolvedRepeatFails(t: Tables, p: Packet)
    ensures AddIncoming(t, Bound(None), p).1 == NotStored <==> Taken(t.rows, PacketIdentity(Bound(None), p))
  {
    FirstDuplicateIs(t.rows, Bound(None), p);
  }

  // ----- Other profiles are not disturbed

  datatype Deed =
    | Receive(packet: Packet)
    | Send(draft: Draft)
    | Deliver(id: int, state: string, attempt: Option<int>, packetId: Option<int>, completedAt: Option<real>,
              error: Option<string>)
    | Redate(id: int, at: real)
    | Delete(id: int)
    | DeleteDm(dm: string)
    | Rename(was: Option<string>, key: string, now: real)

  ghost function Do(t: Tables, ns: Namespace, deed: Deed): Tables {
    match deed
    case Receive(p) => AddIncoming(t, ns, p).0
    case Send(d) => AddOutgoing(t, ns, d)
    case Deliver(id, state, attempt, packetId, completedAt, error) =>
      var after := UpdateDelivery(t, id, state, attempt, packetId, completedAt, error);
      if after.None? then t else after.value
    case Redate(id, at) => UpdateChronology(t, id, at)
    case Delete(id) => DeleteMessage(t, id)
    case DeleteDm(dm) => DeleteConversation(t, ns, dm)
    case Rename(was, key, now) =>
      var after := Rekey(t, was, key, now);
      if after.None? then t else after.value
  }

  ghost function DoAll(t: Tables, ns: Namespace, deeds: seq<Deed>): Tables {
    if deeds == [] then t else Do(DoAll(t, ns, deeds[..|deeds| - 1]), ns, deeds[|deeds| - 1])
  }

  predicate ById(deed: Deed) {
    deed.Deliver? || deed.Redate? || deed.Delete?
  }

  /** A by-ID deed is aimed at a row that is not `key`'s, and a rename neither takes from `key` nor adds to it. */
  ghost predicate Spares(t: Tables, deed: Deed, key: string) {
    (deed.Rename? ==> deed.was != Some(key) && deed.key != key) &&
    (ById(deed) ==> forall r :: r in t.rows && r.id == deed.id ==> r.profileKey != Some(key))
  }

  ghost predicate AllSpare(t: Tables, ns: Namespace, deeds: seq<Deed>, key: string) {
    deeds == [] ||
    (AllSpare(t, ns, deeds[..|deeds| - 1], key) && Spares(DoAll(t, ns, deeds[..|deeds| - 1]), deeds[|deeds| - 1], key))
  }

  /** A rename within one radio. */
  predicate KeepsHome(deed: Deed) {
    deed.Rename? && deed.was.Some? ==> HomeOf(deed.was) == HomeOf(Some(deed.key))
  }

  lemma RekeyKeepsHome(t: Tables, was: Option<string>, key: string, now: real)
    requires Rekey(t, was, key, now).Some?
    ensures AtHome(t.rows) && (was.Some? ==> HomeOf(was) == HomeOf(Some(key))) ==>
            AtHome(Rekey(t, was, key, now).value.rows)
  {
  }

  /** Every statement keeps IDs increasing, the index unique and the rows well formed. */
  lemma DoSound(t: Tables, ns: Namespace, deed: Deed)
    requires Sound(t)
    ensures Sound(Do(t, ns, deed))
    ensures AtHome(t.rows) && KeepsHome(deed) ==> AtHome(Do(t, ns, deed).rows)
  {
    match deed
    case Receive(p) => AddIncomingSound(t, ns, p);
    case Send(d) => AddOutgoingSound(t, ns, d);
    case Deliver(id, state, attempt, packetId, completedAt, error) =>
      if UpdateDelivery(t, id, state, attempt, packetId, completedAt, error).Some? {
        UpdateDeliverySound(t, id, state, attempt, packetId, completedAt, error);
      }
    case Redate(id, at) => UpdateChronologySound(t, id, at);
    case Delete(id) => DeletesSound(t, NotId(id));
    case DeleteDm(dm) => DeletesSound(t, Others(ns, dm));
    case Rename(was, key, now) =>
      if Rekey(t, was, key, now).Some? {
        RekeySound(t, was, key, now);
        RekeyKeepsHome(t, was, key, now);
      }
  }

  lemma {:induction false} DoAllSound(t: Tables, ns: Namespace, deeds: seq<Deed>)
    requires Sound(t)
    ensures Sound(DoAll(t, ns, deeds))
    ensures AtHome(t.rows) && (forall d :: d in deeds ==> KeepsHome(d)) ==> AtHome(DoAll(t, ns, deeds).rows)
  {
    if deeds != [] {
      DoAllSound(t, ns, deeds[..|deeds| - 1]);
      DoSound(DoAll(t, ns, deeds[..|deeds| - 1]), ns, deeds[|deeds| - 1]);
    }
  }

  lemma {:induction false} EachKeepsMine(rows: seq<Row>, f: Row -> Row, key: string)
    requires forall r :: r in rows ==> (f(r).profileKey == Some(key) <==> r.profileKey == Some(key))
    requires forall r :: r in rows && r.profileKey == Some(key) ==> f(r) == r
    ensures Mine(Each(rows, f), key) == Mine(rows, key)
  {
    if rows != [] {
      var front := rows[..|rows| - 1];
      EachKeepsMine(front, f, key);
      assert Each(rows, f)[..|rows| - 1] == Each(front, f);
    }
  }

  lemma {:induction false} FilterKeepsMine(rows: seq<Row>, keep: Row -> bool, key: string)
    requires forall r :: r in rows && r.profileKey == Some(key) ==> keep(r)
    ensures Mine(Filter(rows, keep), key) == Mine(rows, key)
  {
    if rows != [] {
      var front, last := rows[..|rows| - 1], rows[|rows| - 1];
      FilterKeepsMine(front, keep, key);
      if keep(last) {
        FilterConcat(Filter(front, keep), [last], OwnedBy(key));
        assert [last][..0] == [];
      }
    }
  }

  lemma AppendKeepsMine(rows: seq<Row>, r: Row, key: string)
    requires r.profileKey != Some(key)
    ensures Mine(rows + [r], key) == Mine(rows, key)
  {
    assert (rows + [r])[..|rows|] == rows;
  }

  lemma DoKeepsMine(t: Tables, ns: Namespace, deed: Deed, key: string)
    requires ns.Bound? && ns.key != Some(key) && Spares(t, deed, key)
    ensures Mine(Do(t, ns, deed).rows, key) == Mine(t.rows, key)
  {
    match deed
    case Receive(p) => AppendKeepsMine(t.rows, IncomingRow(t.nextRow, ns, p), key);
    case Send(d) => AppendKeepsMine(t.rows, OutgoingRow(t.nextRow, ns, d), key);
    case Deliver(id, state, attempt, packetId, completedAt, error) =>
      EachKeepsMine(t.rows, Delivered(id, state, packetId), key);
    case Redate(id, at) => EachKeepsMine(t.rows, Moved(id, at), key);
    case Delete(id) => FilterKeepsMine(t.rows, NotId(id), key);
    case DeleteDm(dm) => FilterKeepsMine(t.rows, Others(ns, dm), key);
    case Rename(was, other, now) =>
      if was != Some(other) {
        EachKeepsMine(t.rows, Renamed(was, other), key);
      }
  }

  /** Whatever is done while another profile (or none) is bound, aimed at its own rows, this profile's rows stay. */
  lemma {:induction false} OwnRowsUntouched(t: Tables, ns: Namespace, deeds: seq<Deed>, key: string)
    requires ns.Bound? && ns.key != Some(key) && AllSpare(t, ns, deeds, key)
    ensures Mine(DoAll(t, ns, deeds).rows, key) == Mine(t.rows, key)
  {
    if deeds != [] {
      OwnRowsUntouched(t, ns, deeds[..|deeds| - 1], key);
      DoKeepsMine(DoAll(t, ns, deeds[..|deeds| - 1]), ns, deeds[|deeds| - 1], key);
    }
  }

  /** So none of its pages changes. */
  lemma OtherProfilesReadTheSame(t: Tables, ns: Namespace, deeds: seq<Deed>, key: string, q: Query, id: int, limit: int)
    requires Sound(t) && ns.Bound? && ns.key != Some(key) && AllSpare(t, ns, deeds, key)
    ensures var after := DoAll(t, ns, deeds);
      Recent(after.rows, Bound(Some(key)), q, limit) == Recent(t.rows, Bound(Some(key)), q, limit) &&
      (SafeCursor(t.rows, key, q, id, limit) ==>
         Older(after.rows, Bound(Some(key)), q, id, limit) == Older(t.rows, Bound(Some(key)), q, id, limit))
  {
    DoAllSound(t, ns, deeds);
    OwnRowsUntouched(t, ns, deeds, key);
    ReadsDependOnOwnRows(t.rows, DoAll(t, ns, deeds).rows, key, q, id, limit);
  }

  // ----- Rename

  ghost predicate Unused(t: Tables, key: string) {
    key != "" && Mine(t.rows, key) == [] && !HasProfile(t.profiles, key)
  }

  lemma UnusedRows(t: Tables, key: string, i: nat)
    requires Unused(t, key) && i < |t.rows|
    ensures t.rows[i].profileKey != Some(key)
  {
    MineMembers(t.rows, key);
    assert t.rows[i] !in Mine(t.rows, key);
  }

  lemma RenamedIdentity(was: string, key: string, a: Row, b: Row)
    requires key != "" && a.profileKey != Some(key) && b.profileKey != Some(key) && !SameIdentity(a, b)
    ensures !SameIdentity(Renamed(Some(was), key)(a), Renamed(Some(was), key)(b))
  {
  }

  /** A rename to an unused key never collides. */
  lemma RenameSucceeds(t: Tables, was: string, key: string, now: real)
    requires Sound(t) && Unused(t, key) && was != key
    ensures Rekey(t, Some(was), key, now).Some?
    ensures Rekey(t, Some(was), key, now).value.rows == Each(t.rows, Renamed(Some(was), key))
  {
    var rows := Each(t.rows, Renamed(Some(was), key));
    forall i, j | 0 <= i < j < |rows| ensures !SameIdentity(rows[i], rows[j]) {
      UnusedRows(t, key, i);
      UnusedRows(t, key, j);
      RenamedIdentity(was, key, t.rows[i], t.rows[j]);
    }
  }

  /** The new key shows exactly what the old one showed, the old key nothing, and every other key what it did. */
  lemma RenameMovesHistory(t: Tables, was: string, key: string, now: real, q: Query)
    requires Sound(t) && Unused(t, key) && was != key
    ensures Rekey(t, Some(was), key, now).Some?
    ensures var after := Rekey(t, Some(was), key, now).value;
      History(after.rows, Bound(Some(key)), q) ==
        Each(History(t.rows, Bound(Some(was)), q), Renamed(Some(was), key)) &&
      Mine(after.rows, was) == [] &&
      forall other :: other != was && other != key ==> Mine(after.rows, other) == Mine(t.rows, other)
  {
    RenameSucceeds(t, was, key, now);
    RekeySound(t, Some(was), key, now);
    var f := Renamed(Some(was), key);
    var rows := Each(t.rows, f);
    forall other | other != was && other != key ensures Mine(rows, other) == Mine(t.rows, other) {
      EachKeepsMine(t.rows, f, other);
    }
    OldKeyEmpty(t.rows, was, key);
    MovedHistory(t, was, key, q);
  }

  lemma OldKeyEmpty(rows: seq<Row>, was: string, key: string)
    requires was != key
    ensures Mine(Each(rows, Renamed(Some(was), key)), was) == []
  {
    var moved := Each(rows, Renamed(Some(was), key));
    MineMembers(moved, was);
    forall r | r in moved ensures r.profileKey != Some(was) {
    }
    NoMembers(Mine(moved, was));
  }

  lemma MovedHistory(t: Tables, was: string, key: string, q: Query)
    requires Sound(t) && Unused(t, key) && was != key && DistinctIds(Each(t.rows, Renamed(Some(was), key)))
    ensures History(Each(t.rows, Renamed(Some(was), key)), Bound(Some(key)), q) ==
            Each(History(t.rows, Bound(Some(was)), q), Renamed(Some(was), key))
  {
    var f := Renamed(Some(was), key);
    var rows := Each(t.rows, f);
    var v := History(t.rows, Bound(Some(was)), q);
    HistoryHolds(t.rows, Bound(Some(was)), q);
    HistoryHolds(rows, Bound(Some(key)), q);
    MovedMembers(t, was, key, q, v);
    EachAscending(v, f);
    var w := History(rows, Bound(Some(key)), q);
    var from := set r | r in w;
    assert Timeline(w, from);
    assert Timeline(Each(v, f), from);
    TimelineIsUnique(w, Each(v, f), from);
  }

  lemma EachAscending(v: seq<Row>, f: Row -> Row)
    requires Ascending(v)
    requires forall r :: r in v ==> SqlTime(f(r)) == SqlTime(r) && f(r).receivedAt == r.receivedAt && f(r).id == r.id
    ensures Ascending(Each(v, f))
  {
    forall i, j | 0 <= i < j < |v| ensures Earlier(f(v[i]), f(v[j])) {
      assert Earlier(v[i], v[j]);
    }
  }

  lemma MovedMembers(t: Tables, was: string, key: string, q: Query, v: seq<Row>)
    requires Unused(t, key) && was != key
    requires forall r :: r in v <==> r in t.rows && Passes(Bound(Some(was)), q, r)
    ensures var f := Renamed(Some(was), key);
      forall r :: r in Each(v, f) <==> r in Each(t.rows, f) && Passes(Bound(Some(key)), q, r)
  {
    var f := Renamed(Some(was), key);
    forall r | r in Each(v, f) ensures r in Each(t.rows, f) && Passes(Bound(Some(key)), q, r) {
      var i :| 0 <= i < |v| && Each(v, f)[i] == r;
      assert v[i] in v;
      var k :| 0 <= k < |t.rows| && t.rows[k] == v[i];
      assert Each(t.rows, f)[k] == r;
    }
    forall r | r in Each(t.rows, f) && Passes(Bound(Some(key)), q, r) ensures r in Each(v, f) {
      var k :| 0 <= k < |t.rows| && Each(t.rows, f)[k] == r;
      UnusedRows(t, key, k);
      assert t.rows[k] in v;
      var i :| 0 <= i < |v| && v[i] == t.rows[k];
      assert Each(v, f)[i] == r;
    }
  }

  /** A packet stored before the rename is still recognised afterwards exactly when both keys name the same radio. */
  lemma RenamedPacketIsRecognised(t: Tables, was: string, key: string, p: Packet, now: real)
    requires Sound(t) && AtHome(t.rows) && Unused(t, key) && was != key && was != ""
    requires p.packetId.Some? && Taken(t.rows, PacketIdentity(Bound(Some(was)), p))
    ensures Rekey(t, Some(was), key, now).Some?
    ensures Taken(Rekey(t, Some(was), key, now).value.rows, PacketIdentity(Bound(Some(key)), p)) <==>
            OrEmpty(HomeOf(Some(was))) == OrEmpty(HomeOf(Some(key)))
  {
    RenameSucceeds(t, was, key, now);
    var rows := Each(t.rows, Renamed(Some(was), key));
    var i :| 0 <= i < |t.rows| && IdentityOf(t.rows[i]) == PacketIdentity(Bound(Some(was)), p);
    assert rows[i] == t.rows[i].(profileKey := Some(key));
    if Taken(rows, PacketIdentity(Bound(Some(key)), p)) {
      var j :| 0 <= j < |rows| && IdentityOf(rows[j]) == PacketIdentity(Bound(Some(key)), p);
      UnusedRows(t, key, j);
      assert t.rows[j].profileKey == Some(was);
    } else {
      assert IdentityOf(rows[i]) != PacketIdentity(Bound(Some(key)), p);
    }
  }

  /** Keys of one radio under two names have the same node half. */
  lemma SameRadioSameHome(id: Option<string>, name: Option<string>)
    requires CanonicalKey(id, name).Some?
    ensures CanonicalKey(id, name).value != "" && HomeOf(CanonicalKey(id, name)) == Normalize(id)
  {
    SplitInvertsCanonicalKey(id, name);
  }

  /** A radio that changes its short name goes on recognising what it stored under the old one: a repeat of a packet
      stored before the rename names the very row that holds it. */
  lemma RepeatAfterRename(t: Tables, id: Option<string>, name: Option<string>, name': Option<string>, p: Packet,
                          r: Row, now: real)
    requires Sound(t) && AtHome(t.rows) && CanonicalKey(id, name).Some? && CanonicalKey(id, name').Some?
    requires CanonicalKey(id, name) != CanonicalKey(id, name') && Unused(t, CanonicalKey(id, name').value)
    requires r in t.rows && IdentityOf(r).Some? && IdentityOf(r) == PacketIdentity(Bound(CanonicalKey(id, name)), p)
    requires r.dmNodeId == p.dmNodeId
    ensures var was, key := CanonicalKey(id, name), CanonicalKey(id, name').value;
      Rekey(t, was, key, now).Some? &&
      AddIncoming(Rekey(t, was, key, now).value, Bound(Some(key)), p) ==
        (Rekey(t, was, key, now).value, Duplicate(r.id))
  {
    SameRadioSameHome(id, name);
    SameRadioSameHome(id, name');
    RepeatAfterRekey(t, CanonicalKey(id, name).value, CanonicalKey(id, name').value, p, r, now);
  }

  lemma RepeatAfterRekey(t: Tables, was: string, key: string, p: Packet, r: Row, now: real)
    requires Sound(t) && AtHome(t.rows) && Unused(t, key) && was != key && was != ""
    requires HomeOf(Some(was)) == HomeOf(Some(key))
    requires r in t.rows && IdentityOf(r).Some? && IdentityOf(r) == PacketIdentity(Bound(Some(was)), p)
    requires r.dmNodeId == p.dmNodeId
    ensures Rekey(t, Some(was), key, now).Some?
    ensures AddIncoming(Rekey(t, Some(was), key, now).value, Bound(Some(key)), p) ==
            (Rekey(t, Some(was), key, now).value, Duplicate(r.id))
  {
    RenameSucceeds(t, was, key, now);
    var after := Rekey(t, Some(was), key, now).value;
    RekeySound(t, Some(was), key, now);
    RekeyKeepsHome(t, Some(was), key, now);
    var i :| 0 <= i < |t.rows| && t.rows[i] == r;
    var moved := r.(profileKey := Some(key));
    assert after.rows[i] == moved;
    RepeatIsRecognised(after, key, p, moved);
  }

  // ----- The oldest unread row

  predicate NoZeroTime(r: Row) {
    r.originSentAt != Some(0.0) && r.radioRxAt != Some(0.0) && r.localSentAt != Some(0.0) && r.receivedAt != 0.0
  }

  /** Rows the store wrote with times other than zero are ordered by Python as by SQL, so the search for the oldest
      unread one is right for any number of IDs. */
  lemma WrittenRowsAgree(t: Tables, keep: Row -> bool)
    requires Sound(t) && forall r :: r in t.rows && keep(r) ==> NoZeroTime(r)
    ensures OrdersAgree(Matching(t.rows, keep))
  {
    forall r | r in Matching(t.rows, keep) ensures SqlTime(r) == OrderTime(r) {
      var i :| 0 <= i < |t.rows| && t.rows[i] == r;
      ClocksAgreeExactly(r);
    }
    ClocksAgreeOrdersAgree(Matching(t.rows, keep));
  }
}
