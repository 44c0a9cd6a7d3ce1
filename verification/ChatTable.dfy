/** The store's statements, as changes of its tables. A statement either changes what it says or, when it would
    break a uniqueness rule, changes nothing. */
module ChatTable {
  import opened Common
  import opened ChatRows
  import opened ChatPaging
  import opened ProfileKeys

  datatype Attempt = Attempt(id: nat, messageId: int, packetId: Option<int>, state: string, startedAt: real,
                             completedAt: Option<real>, error: Option<string>)

  datatype Profile = Profile(key: string, nodeId: Option<string>, shortName: string, createdAt: real, updatedAt: real)

  datatype Tables = Tables(rows: seq<Row>, attempts: seq<Attempt>, profiles: seq<Profile>,
                           nextRow: nat, nextAttempt: nat)

  /** A received packet as it is handed to the store. */
  datatype Packet = Packet(packetId: Option<int>, nodeId: string, senderName: Option<string>,
                           senderShortName: Option<string>, channelIndex: int, text: string,
                           originSentAt: Option<real>, radioRxAt: Option<real>, receivedAt: real,
                           dmNodeId: Option<string>, channelKey: Option<string>)

  datatype Draft = Draft(text: string, channelIndex: int, localSentAt: real, deliveryState: string,
                         dmNodeId: Option<string>, channelKey: Option<string>)

  datatype Added = Inserted(id: nat) | Duplicate(id: nat) | NotStored

  // ----- What a write is stamped with

  function KeyOf(ns: Namespace): Option<string> {
    if ns.Bound? then ns.key else None
  }

  function HomeOf(key: Option<string>): Option<string> {
    if key.None? || key.value == "" then None else NodePart(key.value)
  }

  function IncomingRow(id: nat, ns: Namespace, p: Packet): Row {
    Row(id, Incoming, p.packetId, Some(p.nodeId), p.senderName, p.senderShortName, p.channelIndex, p.text,
        p.originSentAt, p.radioRxAt, p.receivedAt, None, None, p.receivedAt, p.dmNodeId, p.channelKey,
        HomeOf(KeyOf(ns)), KeyOf(ns))
  }

  function OutgoingRow(id: nat, ns: Namespace, d: Draft): Row {
    Row(id, Outgoing, None, None, Some("YOU"), None, d.channelIndex, d.text, None, None, d.localSentAt,
        Some(d.localSentAt), Some(d.deliveryState), d.localSentAt, d.dmNodeId, d.channelKey,
        HomeOf(KeyOf(ns)), KeyOf(ns))
  }

  // ----- The packet-identity index

  datatype Identity = Identity(nodeId: string, packetId: int, channelIndex: int, dm: string, home: string,
                               profile: string)

  function OrEmpty(s: Option<string>): string {
    if s.None? then "" else s.value
  }

  /** The indexed columns of a row the partial unique index covers. A NULL sender is distinct from every other. */
  function IdentityOf(r: Row): Option<Identity> {
    if r.direction.Outgoing? || r.packetId.None? || r.nodeId.None? then None
    else Some(Identity(r.nodeId.value, r.packetId.value, r.channelIndex, OrEmpty(r.dmNodeId),
                       OrEmpty(r.localNodeId), OrEmpty(r.profileKey)))
  }

  function PacketIdentity(ns: Namespace, p: Packet): Option<Identity> {
    IdentityOf(IncomingRow(0, ns, p))
  }

  predicate SameIdentity(a: Row, b: Row) {
    IdentityOf(a).Some? && IdentityOf(a) == IdentityOf(b)
  }

  predicate Taken(rows: seq<Row>, identity: Option<Identity>) {
    identity.Some? && exists i :: 0 <= i < |rows| && IdentityOf(rows[i]) == identity
  }

  ghost predicate IndexHolds(rows: seq<Row>) {
    forall i, j :: 0 <= i < j < |rows| ==> !SameIdentity(rows[i], rows[j])
  }

  /** The look-up after an ignored insert: it asks sender, packet, channel, conversation and profile. */
  predicate IsDuplicate(ns: Namespace, p: Packet, r: Row) {
    r.direction.Incoming? && r.nodeId == Some(p.nodeId) && p.packetId.Some? && r.packetId == p.packetId &&
    r.channelIndex == p.channelIndex && r.dmNodeId == p.dmNodeId && InNamespace(ns, r)
  }

  function FirstDuplicate(rows: seq<Row>, ns: Namespace, p: Packet): Option<Row> {
    if rows == [] then None
    else if IsDuplicate(ns, p, rows[0]) then Some(rows[0])
    else FirstDuplicate(rows[1..], ns, p)
  }

  // ----- Statements

  function AddIncoming(t: Tables, ns: Namespace, p: Packet): (Tables, Added) {
    if !Taken(t.rows, PacketIdentity(ns, p)) then
      (t.(rows := t.rows + [IncomingRow(t.nextRow, ns, p)], nextRow := t.nextRow + 1), Inserted(t.nextRow))
    else
      var d := FirstDuplicate(t.rows, ns, p);
      (t, if d.None? then NotStored else Duplicate(d.value.id))
  }

  function AddOutgoing(t: Tables, ns: Namespace, d: Draft): Tables {
    t.(rows := t.rows + [OutgoingRow(t.nextRow, ns, d)], nextRow := t.nextRow + 1)
  }

  function AddAttempt(t: Tables, messageId: int, startedAt: real, state: string): Tables {
    t.(attempts := t.attempts + [Attempt(t.nextAttempt, messageId, None, state, startedAt, None, None)],
       nextAttempt := t.nextAttempt + 1)
  }

  function Each(rows: seq<Row>, f: Row -> Row): seq<Row> {
    seq(|rows|, i requires 0 <= i < |rows| => f(rows[i]))
  }

  function Delivered(id: int, state: string, packetId: Option<int>): Row -> Row {
    (r: Row) =>
      if r.id == id then r.(deliveryState := Some(state), packetId := if packetId.Some? then packetId else r.packetId)
      else r
  }

  function AttemptUpdated(a: Attempt, id: int, messageId: int, state: string, packetId: Option<int>,
                          completedAt: Option<real>, error: Option<string>): Attempt {
    if a.id == id && a.messageId == messageId
    then a.(state := state, packetId := if packetId.Some? then packetId else a.packetId,
            completedAt := completedAt, error := error)
    else a
  }

  function AttemptsUpdated(attempts: seq<Attempt>, messageId: int, state: string, attempt: Option<int>,
                           packetId: Option<int>, completedAt: Option<real>, error: Option<string>): seq<Attempt> {
    if attempt.None? then attempts
    else
      seq(|attempts|, i requires 0 <= i < |attempts| =>
        AttemptUpdated(attempts[i], attempt.value, messageId, state, packetId, completedAt, error))
  }

  /** None when the new packet ID would break the index; then nothing changes. */
  ghost function UpdateDelivery(t: Tables, id: int, state: string, attempt: Option<int>, packetId: Option<int>,
                                completedAt: Option<real>, error: Option<string>): Option<Tables> {
    var rows := Each(t.rows, Delivered(id, state, packetId));
    if !IndexHolds(rows) then None
    else
      Some(t.(rows := rows,
              attempts := AttemptsUpdated(t.attempts, id, state, attempt, packetId, completedAt, error)))
  }

  function Moved(id: int, localSentAt: real): Row -> Row {
    (r: Row) => if r.id == id && r.direction.Outgoing? then r.(localSentAt := Some(localSentAt)) else r
  }

  function UpdateChronology(t: Tables, id: int, localSentAt: real): Tables {
    t.(rows := Each(t.rows, Moved(id, localSentAt)))
  }

  function NotId(id: int): Row -> bool {
    (r: Row) => r.id != id
  }

  function FilterAttempts(attempts: seq<Attempt>, gone: set<int>): seq<Attempt> {
    if attempts == [] then []
    else
      var front := FilterAttempts(attempts[..|attempts| - 1], gone);
      var last := attempts[|attempts| - 1];
      if last.messageId in gone then front else front + [last]
  }

  function DeleteMessage(t: Tables, id: int): Tables {
    t.(rows := Filter(t.rows, NotId(id)), attempts := FilterAttempts(t.attempts, {id}))
  }

  function Conversation(ns: Namespace, dm: string): Row -> bool {
    (r: Row) => r.dmNodeId == Some(dm) && InNamespace(ns, r)
  }

  function Others(ns: Namespace, dm: string): Row -> bool {
    (r: Row) => !(r.dmNodeId == Some(dm) && InNamespace(ns, r))
  }

  function IdsOf(rows: seq<Row>, keep: Row -> bool): set<int> {
    set r | r in rows && keep(r) :: r.id
  }

  function DeleteConversation(t: Tables, ns: Namespace, dm: string): Tables {
    t.(rows := Filter(t.rows, Others(ns, dm)),
       attempts := FilterAttempts(t.attempts, IdsOf(t.rows, Conversation(ns, dm))))
  }

  // ----- Profiles

  function Renamed(was: Option<string>, key: string): Row -> Row {
    (r: Row) => if was.Some? && r.profileKey == was then r.(profileKey := Some(key)) else r
  }

  predicate HasProfile(profiles: seq<Profile>, key: string) {
    exists i :: 0 <= i < |profiles| && profiles[i].key == key
  }

  function ProfileRenamed(p: Profile, was: Option<string>, key: string, now: real): Profile {
    if was == Some(p.key) then p.(key := key, updatedAt := now) else p
  }

  function ProfilesRenamed(profiles: seq<Profile>, was: Option<string>, key: string, now: real): seq<Profile> {
    seq(|profiles|, i requires 0 <= i < |profiles| => ProfileRenamed(profiles[i], was, key, now))
  }

  /** None when a moved row or the profile record itself would collide; then nothing changes. */
  ghost function Rekey(t: Tables, was: Option<string>, key: string, now: real): Option<Tables> {
    if was == Some(key) then Some(t)
    else
      var rows := Each(t.rows, Renamed(was, key));
      if !IndexHolds(rows) || (was.Some? && HasProfile(t.profiles, was.value) && HasProfile(t.profiles, key)) then None
      else
        Some(t.(rows := rows,
                profiles := ProfilesRenamed(t.profiles, was, key, now)))
  }

  function EnsureProfile(t: Tables, id: Option<string>, name: Option<string>, now: real): Tables {
    var key := CanonicalKey(id, name);
    if key.None? || HasProfile(t.profiles, key.value) then t
    else t.(profiles := t.profiles + [Profile(key.value, Normalize(id), ShortName(name), now, now)])
  }

  // ----- What every statement keeps

  ghost predicate IdsIncrease(rows: seq<Row>, next: nat) {
    (forall i, j :: 0 <= i < j < |rows| ==> rows[i].id < rows[j].id) &&
    (forall i :: 0 <= i < |rows| ==> 0 < rows[i].id < next)
  }

  /** Every row is stamped with the node half of its own profile. */
  ghost predicate AtHome(rows: seq<Row>) {
    forall i :: 0 <= i < |rows| ==> rows[i].localNodeId == HomeOf(rows[i].profileKey)
  }

  ghost predicate AllWritten(rows: seq<Row>) {
    forall i :: 0 <= i < |rows| ==> Written(rows[i])
  }

  ghost predicate ProfilesDistinct(profiles: seq<Profile>) {
    forall i, j :: 0 <= i < j < |profiles| ==> profiles[i].key != profiles[j].key
  }

  ghost predicate Sound(t: Tables) {
    t.nextRow > 0 && IdsIncrease(t.rows, t.nextRow) && IndexHolds(t.rows) && AllWritten(t.rows) &&
    ProfilesDistinct(t.profiles)
  }

  lemma SoundIsTable(t: Tables)
    requires Sound(t)
    ensures DistinctIds(t.rows) && forall r :: r in t.rows ==> r.id > 0
  {
  }

  lemma AppendKeeps(rows: seq<Row>, r: Row, next: nat)
    requires 0 < r.id < next && IdsIncrease(rows, r.id) && IndexHolds(rows) && AllWritten(rows)
    requires Written(r) && !Taken(rows, IdentityOf(r))
    ensures IdsIncrease(rows + [r], next) && IndexHolds(rows + [r]) && AllWritten(rows + [r])
  {
    forall i, j | 0 <= i < j < |rows + [r]| ensures !SameIdentity((rows + [r])[i], (rows + [r])[j]) {
      assert j == |rows| && SameIdentity(rows[i], r) ==> Taken(rows, IdentityOf(r));
    }
  }

  /** A stored packet keeps the index, gets the next ID and leaves every older row as it was. */
  lemma AddIncomingSound(t: Tables, ns: Namespace, p: Packet)
    requires Sound(t)
    ensures Sound(AddIncoming(t, ns, p).0)
    ensures t.rows <= AddIncoming(t, ns, p).0.rows
    ensures AtHome(t.rows) ==> AtHome(AddIncoming(t, ns, p).0.rows)
  {
    if !Taken(t.rows, PacketIdentity(ns, p)) {
      AppendKeeps(t.rows, IncomingRow(t.nextRow, ns, p), t.nextRow + 1);
    }
  }

  lemma AddOutgoingSound(t: Tables, ns: Namespace, d: Draft)
    requires Sound(t)
    ensures Sound(AddOutgoing(t, ns, d))
    ensures AtHome(t.rows) ==> AtHome(AddOutgoing(t, ns, d).rows)
  {
    AppendKeeps(t.rows, OutgoingRow(t.nextRow, ns, d), t.nextRow + 1);
  }

  lemma EachSound(t: Tables, f: Row -> Row, rows: seq<Row>)
    requires Sound(t) && rows == Each(t.rows, f) && IndexHolds(rows)
    requires forall i :: 0 <= i < |t.rows| ==> f(t.rows[i]).id == t.rows[i].id && Written(f(t.rows[i]))
    ensures Sound(t.(rows := rows))
  {
    forall i | 0 <= i < |rows| ensures rows[i].id == t.rows[i].id && Written(rows[i]) {
    }
    assert forall i, j :: 0 <= i < j < |rows| ==> t.rows[i].id < t.rows[j].id;
  }

  lemma UpdateChronologySound(t: Tables, id: int, at: real)
    requires Sound(t)
    ensures Sound(UpdateChronology(t, id, at))
    ensures AtHome(t.rows) ==> AtHome(UpdateChronology(t, id, at).rows)
  {
    var rows := Each(t.rows, Moved(id, at));
    forall i, j | 0 <= i < j < |rows| ensures !SameIdentity(rows[i], rows[j]) {
      assert IdentityOf(rows[i]) == IdentityOf(t.rows[i]) && IdentityOf(rows[j]) == IdentityOf(t.rows[j]);
      assert !SameIdentity(t.rows[i], t.rows[j]);
    }
    EachSound(t, Moved(id, at), rows);
  }

  lemma UpdateDeliverySound(t: Tables, id: int, state: string, attempt: Option<int>, packetId: Option<int>,
                            completedAt: Option<real>, error: Option<string>)
    requires Sound(t) && UpdateDelivery(t, id, state, attempt, packetId, completedAt, error).Some?
    ensures Sound(UpdateDelivery(t, id, state, attempt, packetId, completedAt, error).value)
    ensures AtHome(t.rows) ==> AtHome(UpdateDelivery(t, id, state, attempt, packetId, completedAt, error).value.rows)
  {
    EachSound(t, Delivered(id, state, packetId), Each(t.rows, Delivered(id, state, packetId)));
  }

  /** An outgoing row is outside the index, so recording its delivery always succeeds. */
  lemma OutgoingDeliverySucceeds(t: Tables, id: int, state: string, packetId: Option<int>)
    requires Sound(t) && forall i :: 0 <= i < |t.rows| && t.rows[i].id == id ==> t.rows[i].direction.Outgoing?
    ensures UpdateDelivery(t, id, state, None, packetId, None, None).Some?
  {
    var rows := Each(t.rows, Delivered(id, state, packetId));
    forall i, j | 0 <= i < j < |rows| ensures !SameIdentity(rows[i], rows[j]) {
      assert IdentityOf(rows[i]) == IdentityOf(t.rows[i]) && IdentityOf(rows[j]) == IdentityOf(t.rows[j]);
      assert !SameIdentity(t.rows[i], t.rows[j]);
    }
  }

  lemma {:induction false} FilterSound(rows: seq<Row>, keep: Row -> bool, next: nat)
    requires IdsIncrease(rows, next) && IndexHolds(rows) && AllWritten(rows)
    ensures var kept := Filter(rows, keep);
      IdsIncrease(kept, next) && IndexHolds(kept) && AllWritten(kept) && (AtHome(rows) ==> AtHome(kept))
  {
    if rows != [] {
      var front, last := rows[..|rows| - 1], rows[|rows| - 1];
      FilterSound(front, keep, last.id);
      if keep(last) {
        NotTakenInFront(rows, keep);
        AppendKeeps(Filter(front, keep), last, next);
      }
    }
  }

  lemma NotTakenInFront(rows: seq<Row>, keep: Row -> bool)
    requires rows != [] && IndexHolds(rows)
    ensures !Taken(Filter(rows[..|rows| - 1], keep), IdentityOf(rows[|rows| - 1]))
  {
    var front, last := rows[..|rows| - 1], rows[|rows| - 1];
    FilterMembers(front, keep);
    var kept := Filter(front, keep);
    forall i | 0 <= i < |kept| ensures !SameIdentity(kept[i], last) {
      assert kept[i] in front;
      var k :| 0 <= k < |front| && front[k] == kept[i];
      assert rows[k] == front[k];
    }
  }

  lemma DeletesSound(t: Tables, keep: Row -> bool)
    requires Sound(t)
    ensures Sound(t.(rows := Filter(t.rows, keep)))
    ensures AtHome(t.rows) ==> AtHome(Filter(t.rows, keep))
  {
    FilterSound(t.rows, keep, t.nextRow);
  }

  lemma RekeySound(t: Tables, was: Option<string>, key: string, now: real)
    requires Sound(t) && Rekey(t, was, key, now).Some?
    ensures Sound(Rekey(t, was, key, now).value)
  {
    if was != Some(key) {
      EachSound(t, Renamed(was, key), Each(t.rows, Renamed(was, key)));
      var after := Rekey(t, was, key, now).value.profiles;
      forall i, j | 0 <= i < j < |after| ensures after[i].key != after[j].key {
        assert t.profiles[i].key != t.profiles[j].key;
      }
    }
  }
}
