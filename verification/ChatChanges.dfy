/** What deleting a message or a conversation, recording a delivery and re-dating a message leave behind: in the tables
    row by row, and in every conversation on show. */
module ChatChanges {
  import opened Common
  import opened Sorting
  import opened ChatRows
  import opened ChatPaging
  import opened ChatReading
  import opened ChatTable
  import opened ProfileKeys

  // ----- What a deletion keeps

  lemma {:induction false} FilterPicks(rows: seq<Row>, keep: Row -> bool)
    ensures Picks(rows, Filter(rows, keep), keep)
  {
    if rows == [] {
      PicksNothing(keep);
    } else {
      FilterPicks(rows[..|rows| - 1], keep);
      PicksMore(rows, Filter(rows[..|rows| - 1], keep), keep);
    }
  }

  function NotAmong(gone: set<int>): Attempt -> bool {
    (a: Attempt) => a.messageId !in gone
  }

  lemma {:induction false} AttemptsPick(attempts: seq<Attempt>, gone: set<int>)
    ensures Picks(attempts, FilterAttempts(attempts, gone), NotAmong(gone))
  {
    if attempts == [] {
      PicksNothing(NotAmong(gone));
    } else {
      var front := attempts[..|attempts| - 1];
      AttemptsPick(front, gone);
      PicksMore(attempts, FilterAttempts(front, gone), NotAmong(gone));
      AttemptsNext(attempts, gone, front, attempts[|attempts| - 1]);
    }
  }

  lemma AttemptsNext(attempts: seq<Attempt>, gone: set<int>, front: seq<Attempt>, last: Attempt)
    requires attempts != [] && front == attempts[..|attempts| - 1] && last == attempts[|attempts| - 1]
    ensures FilterAttempts(attempts, gone) ==
            if NotAmong(gone)(last) then FilterAttempts(front, gone) + [last] else FilterAttempts(front, gone)
  {
  }

  lemma SameKeep<T>(whole: seq<T>, part: seq<T>, keep: T -> bool, keep': T -> bool)
    requires Picks(whole, part, keep) && forall i :: 0 <= i < |whole| ==> keep(whole[i]) == keep'(whole[i])
    ensures Picks(whole, part, keep')
  {
    var at: seq<nat> :| PicksAt(whole, part, keep, at);
    forall i | 0 <= i < |at| ensures keep'(part[i]) {
      assert keep(whole[at[i]]) == keep'(whole[at[i]]);
    }
    assert PicksAt(whole, part, keep', at);
  }

  // ----- Deleting a conversation

  /** A row of the conversation with `dm`, of the profile the store is bound to, or of any when it is bound to none. */
  predicate OfConversation(ns: Namespace, dm: string, r: Row) {
    && r.dmNodeId == Some(dm)
    && (match ns
        case Unbound => true
        case Bound(key) => key.Some? && r.profileKey == key)
  }

  function Stays(ns: Namespace, dm: string): Row -> bool {
    (r: Row) => !OfConversation(ns, dm, r)
  }

  predicate Removed(rows: seq<Row>, ns: Namespace, dm: string, id: int) {
    exists r :: r in rows && r.id == id && OfConversation(ns, dm, r)
  }

  function AttemptStays(rows: seq<Row>, ns: Namespace, dm: string): Attempt -> bool {
    (a: Attempt) => !Removed(rows, ns, dm, a.messageId)
  }

  /** A deletion removes exactly the rows of that conversation of the bound profile and their attempts, in order, and
      touches nothing else. */
  lemma ConversationIsRemoved(t: Tables, ns: Namespace, dm: string)
    ensures var after := DeleteConversation(t, ns, dm);
      && Picks(t.rows, after.rows, Stays(ns, dm))
      && Picks(t.attempts, after.attempts, AttemptStays(t.rows, ns, dm))
      && after.profiles == t.profiles && after.nextRow == t.nextRow && after.nextAttempt == t.nextAttempt
  {
    FilterPicks(t.rows, Others(ns, dm));
    SameKeep(t.rows, Filter(t.rows, Others(ns, dm)), Others(ns, dm), Stays(ns, dm));
    var gone := IdsOf(t.rows, Conversation(ns, dm));
    forall a: Attempt ensures AttemptStays(t.rows, ns, dm)(a) <==> a.messageId !in gone {
      if Removed(t.rows, ns, dm, a.messageId) {
        var r :| r in t.rows && r.id == a.messageId && OfConversation(ns, dm, r);
        assert Conversation(ns, dm)(r);
      }
    }
    AttemptsPick(t.attempts, gone);
    SameKeep(t.attempts, FilterAttempts(t.attempts, gone), NotAmong(gone), AttemptStays(t.rows, ns, dm));
  }

  lemma GoneNext(front: seq<Row>, last: Row, keep: Row -> bool, less: set<Row>, gone: set<Row>)
    requires less == (set r | r in front && !keep(r)) && gone == (set r | r in front + [last] && !keep(r))
    requires last !in front
    ensures gone == (if keep(last) then less else less + {last}) && last !in less
  {
  }

  lemma {:induction false} RemovedCount(rows: seq<Row>, keep: Row -> bool, gone: set<Row>)
    requires DistinctIds(rows) && gone == set r | r in rows && !keep(r)
    ensures |rows| == |Filter(rows, keep)| + |gone|
  {
    if rows == [] {
      assert gone == {};
    } else {
      var front, last := rows[..|rows| - 1], rows[|rows| - 1];
      var less := set r | r in front && !keep(r);
      assert rows == front + [last];
      RemovedCount(front, keep, less);
      assert last !in front;
      GoneNext(front, last, keep, less, gone);
    }
  }

  /** The number reported is the number of rows removed. */
  lemma RemovedAreCounted(t: Tables, ns: Namespace, dm: string)
    requires Sound(t)
    ensures |t.rows| - |DeleteConversation(t, ns, dm).rows| == |set r | r in t.rows && OfConversation(ns, dm, r)|
  {
    SoundIsTable(t);
    RemovedCount(t.rows, Others(ns, dm), set r | r in t.rows && OfConversation(ns, dm, r));
  }

  lemma SameHistory(rows: seq<Row>, rows': seq<Row>, ns: Namespace, q: Query)
    requires DistinctIds(rows) && DistinctIds(rows')
    requires forall r :: Passes(ns, q, r) ==> (r in rows <==> r in rows')
    ensures History(rows, ns, q) == History(rows', ns, q)
  {
    HistoryHolds(rows, ns, q);
    HistoryHolds(rows', ns, q);
    TimelineIsUnique(History(rows, ns, q), History(rows', ns, q), Matching(rows, Wanted(ns, q, None)));
  }

  /** Afterwards the conversation is empty, and every other one, and every channel, shows what it showed. */
  lemma OnlyThatConversationEmpties(t: Tables, ns: Namespace, dm: string, q: Query)
    requires Sound(t)
    ensures var after := DeleteConversation(t, ns, dm);
      History(after.rows, ns, q) == if q == Dm(dm) then [] else History(t.rows, ns, q)
  {
    var after := DeleteConversation(t, ns, dm);
    DeletesSound(t, Others(ns, dm));
    SoundIsTable(t);
    SoundIsTable(after);
    FilterMembers(t.rows, Others(ns, dm));
    if q == Dm(dm) {
      HistoryHolds(after.rows, ns, q);
      NoMembers(History(after.rows, ns, q));
    } else {
      SameHistory(t.rows, after.rows, ns, q);
    }
  }

  // ----- Deleting one message

  function OtherRow(id: int): Row -> bool {
    (r: Row) => r.id != id
  }

  function OtherAttempt(id: int): Attempt -> bool {
    (a: Attempt) => a.messageId != id
  }

  /** One message goes, with its attempts; everything else stays, in order. */
  lemma MessageIsRemoved(t: Tables, id: int)
    ensures var after := DeleteMessage(t, id);
      && Picks(t.rows, after.rows, OtherRow(id)) && Picks(t.attempts, after.attempts, OtherAttempt(id))
      && after.profiles == t.profiles && after.nextRow == t.nextRow && after.nextAttempt == t.nextAttempt
  {
    FilterPicks(t.rows, NotId(id));
    SameKeep(t.rows, Filter(t.rows, NotId(id)), NotId(id), OtherRow(id));
    AttemptsPick(t.attempts, {id});
    SameKeep(t.attempts, FilterAttempts(t.attempts, {id}), NotAmong({id}), OtherAttempt(id));
  }

  /** Every conversation shows what it showed, without that message. */
  lemma HistoryWithoutMessage(t: Tables, id: int, ns: Namespace, q: Query)
    requires Sound(t)
    ensures Picks(History(t.rows, ns, q), History(DeleteMessage(t, id).rows, ns, q), OtherRow(id))
  {
    var after := DeleteMessage(t, id);
    var v, w := History(t.rows, ns, q), History(after.rows, ns, q);
    DeletesSound(t, NotId(id));
    SoundIsTable(t);
    SoundIsTable(after);
    FilterMembers(t.rows, NotId(id));
    HistoryHolds(t.rows, ns, q);
    HistoryHolds(after.rows, ns, q);
    FilterMembers(v, OtherRow(id));
    FilterAscending(v, OtherRow(id));
    TimelineIsUnique(w, Filter(v, OtherRow(id)), Matching(after.rows, Wanted(ns, q, None)));
    FilterPicks(v, OtherRow(id));
  }

  lemma {:induction false} FilterAscending(v: seq<Row>, keep: Row -> bool)
    requires Ascending(v)
    ensures Ascending(Filter(v, keep))
  {
    if v != [] {
      var n := |v| - 1;
      FilterAscending(v[..n], keep);
      FilterMembers(v[..n], keep);
      forall r | r in v[..n] ensures Earlier(r, v[n]) {
        var i :| 0 <= i < n && v[i] == r;
      }
    }
  }

  // ----- Recording a delivery

  /** The named row gets the new state, and the packet ID when one is given; no other row and no other field changes. */
  lemma DeliveryIsRecorded(t: Tables, id: int, state: string, attempt: Option<int>, packetId: Option<int>,
                           completedAt: Option<real>, error: Option<string>, i: nat)
    requires UpdateDelivery(t, id, state, attempt, packetId, completedAt, error).Some? && i < |t.rows|
    ensures var after, r := UpdateDelivery(t, id, state, attempt, packetId, completedAt, error).value, t.rows[i];
      && |after.rows| == |t.rows|
      && (r.id != id ==> after.rows[i] == r)
      && (r.id == id ==> after.rows[i].deliveryState == Some(state))
      && (r.id == id ==> after.rows[i].packetId == (if packetId.Some? then packetId else r.packetId))
      && after.rows[i].(deliveryState := r.deliveryState, packetId := r.packetId) == r
      && after.profiles == t.profiles && after.nextRow == t.nextRow && after.nextAttempt == t.nextAttempt
  {
  }

  /** The attempt named, when it is one of that message's, gets the outcome; no other attempt changes. */
  lemma AttemptIsRecorded(t: Tables, id: int, state: string, attempt: Option<int>, packetId: Option<int>,
                          completedAt: Option<real>, error: Option<string>, i: nat)
    requires UpdateDelivery(t, id, state, attempt, packetId, completedAt, error).Some? && i < |t.attempts|
    ensures var after, a := UpdateDelivery(t, id, state, attempt, packetId, completedAt, error).value, t.attempts[i];
      var named := attempt == Some(a.id as int) && a.messageId == id;
      && |after.attempts| == |t.attempts|
      && (!named ==> after.attempts[i] == a)
      && (named ==> after.attempts[i] == Attempt(a.id, id, if packetId.Some? then packetId else a.packetId, state,
                                                 a.startedAt, completedAt, error))
  {
  }

  /** An attempt begun and then answered is one more attempt, with its message, its times and its outcome; the attempts
      of before are as they were. */
  lemma AttemptIsFollowed(t: Tables, messageId: int, startedAt: real, state: string, outcome: string,
                          packetId: Option<int>, completedAt: Option<real>, error: Option<string>)
    requires forall i :: 0 <= i < |t.attempts| ==> t.attempts[i].id < t.nextAttempt
    ensures var begun := AddAttempt(t, messageId, startedAt, state);
      var after := UpdateDelivery(begun, messageId, outcome, Some(t.nextAttempt), packetId, completedAt, error);
      && begun.rows == t.rows && begun.profiles == t.profiles
      && begun.attempts == t.attempts + [Attempt(t.nextAttempt, messageId, None, state, startedAt, None, None)]
      && begun.nextAttempt == t.nextAttempt + 1
      && (forall i :: 0 <= i < |begun.attempts| ==> begun.attempts[i].id < begun.nextAttempt)
      && (after.Some? ==>
            after.value.attempts ==
            t.attempts + [Attempt(t.nextAttempt, messageId, packetId, outcome, startedAt, completedAt, error)])
  {
  }

  lemma SameTimes(v: seq<Row>, w: seq<Row>)
    requires Ascending(v) && |w| == |v|
    requires forall i :: 0 <= i < |v| ==>
               w[i].id == v[i].id && w[i].receivedAt == v[i].receivedAt && SqlTime(w[i]) == SqlTime(v[i])
    ensures Ascending(w)
  {
    forall i, j | 0 <= i < j < |w| ensures Earlier(w[i], w[j]) {
      assert Earlier(v[i], v[j]);
    }
  }

  /** A delivery moves no message: every conversation shows the same messages in the same places. */
  lemma DeliveryMovesNothing(t: Tables, id: int, state: string, attempt: Option<int>, packetId: Option<int>,
                             completedAt: Option<real>, error: Option<string>, ns: Namespace, q: Query)
    requires Sound(t) && UpdateDelivery(t, id, state, attempt, packetId, completedAt, error).Some?
    ensures var after := UpdateDelivery(t, id, state, attempt, packetId, completedAt, error).value;
      History(after.rows, ns, q) == Each(History(t.rows, ns, q), Delivered(id, state, packetId))
  {
    var after := UpdateDelivery(t, id, state, attempt, packetId, completedAt, error).value;
    var f := Delivered(id, state, packetId);
    var v, w := History(t.rows, ns, q), History(after.rows, ns, q);
    UpdateDeliverySound(t, id, state, attempt, packetId, completedAt, error);
    SoundIsTable(t);
    SoundIsTable(after);
    HistoryHolds(t.rows, ns, q);
    HistoryHolds(after.rows, ns, q);
    SameTimes(v, Each(v, f));
    EachHolds(t.rows, v, f, ns, q);
    TimelineIsUnique(w, Each(v, f), Matching(after.rows, Wanted(ns, q, None)));
  }

  lemma EachHolds(rows: seq<Row>, v: seq<Row>, f: Row -> Row, ns: Namespace, q: Query)
    requires forall r :: r in v <==> r in rows && Passes(ns, q, r)
    requires forall r :: Passes(ns, q, f(r)) == Passes(ns, q, r)
    ensures forall r :: r in Each(v, f) <==> r in Each(rows, f) && Passes(ns, q, r)
  {
    forall r | r in Each(v, f) ensures r in Each(rows, f) && Passes(ns, q, r) {
      var i :| 0 <= i < |v| && Each(v, f)[i] == r;
      assert v[i] in v;
      var k :| 0 <= k < |rows| && rows[k] == v[i];
      assert Each(rows, f)[k] == r;
    }
    forall r | r in Each(rows, f) && Passes(ns, q, r) ensures r in Each(v, f) {
      var k :| 0 <= k < |rows| && Each(rows, f)[k] == r;
      assert rows[k] in v;
      var i :| 0 <= i < |v| && v[i] == rows[k];
      assert Each(v, f)[i] == r;
    }
  }

  // ----- Re-dating

  /** An outgoing message takes the new time, in its row and in the order; an incoming one and every other row stay. */
  lemma MessageIsRedated(t: Tables, id: int, localSentAt: real, i: nat)
    requires Sound(t) && i < |t.rows|
    ensures var after, r := UpdateChronology(t, id, localSentAt), t.rows[i];
      var named := r.id == id && r.direction == Outgoing;
      && |after.rows| == |t.rows| && after.(rows := t.rows) == t
      && (!named ==> after.rows[i] == r)
      && (named ==> after.rows[i].localSentAt == Some(localSentAt) && SqlTime(after.rows[i]) == localSentAt)
      && after.rows[i].(localSentAt := r.localSentAt) == r
  {
    assert Written(t.rows[i]);
  }

  /** It stays in its conversation, and all others in theirs. */
  lemma RedatingKeepsConversations(t: Tables, id: int, localSentAt: real, ns: Namespace, q: Query, i: nat)
    requires Sound(t) && i < |t.rows|
    ensures var after := UpdateChronology(t, id, localSentAt);
      |after.rows| == |t.rows| &&
      (after.rows[i] in History(after.rows, ns, q) <==> t.rows[i] in History(t.rows, ns, q))
  {
    var after := UpdateChronology(t, id, localSentAt);
    UpdateChronologySound(t, id, localSentAt);
    SoundIsTable(t);
    SoundIsTable(after);
    HistoryHolds(t.rows, ns, q);
    HistoryHolds(after.rows, ns, q);
  }

  // ----- Profile records

  ghost predicate Known(profiles: seq<Profile>, key: string) {
    exists p :: p in profiles && p.key == key
  }

  /** A usable pairing has a record under its own key afterwards: the old one when there is one, else a new one. */
  lemma ProfileIsEnsured(t: Tables, id: Option<string>, name: Option<string>, now: real)
    ensures var after := EnsureProfile(t, id, name, now); var key := CanonicalKey(id, name);
      && after.(profiles := t.profiles) == t && t.profiles <= after.profiles
      && (key.Some? ==> Known(after.profiles, key.value))
      && (key.None? || Known(t.profiles, key.value) ==> after == t)
      && (key.Some? && !Known(t.profiles, key.value) ==>
            && |after.profiles| == |t.profiles| + 1
            && var p := after.profiles[|t.profiles|];
               SplitKey(Some(p.key)) == (p.nodeId, p.shortName) && p.createdAt == p.updatedAt == now)
  {
    var key := CanonicalKey(id, name);
    if key.Some? {
      KnownIs(t.profiles, key.value);
      SplitInvertsCanonicalKey(id, name);
      if !Known(t.profiles, key.value) {
        AddedIsKnown(t.profiles, Profile(key.value, Normalize(id), ShortName(name), now, now));
      }
    }
  }

  lemma AddedIsKnown(profiles: seq<Profile>, p: Profile)
    ensures Known(profiles + [p], p.key)
  {
    assert (profiles + [p])[|profiles|] == p;
  }

  lemma KnownIs(profiles: seq<Profile>, key: string)
    ensures HasProfile(profiles, key) <==> Known(profiles, key)
  {
    if HasProfile(profiles, key) {
      var i :| 0 <= i < |profiles| && profiles[i].key == key;
      assert profiles[i] in profiles;
    }
  }

  /** A row after its profile's key has changed. */
  ghost function MovedTo(r: Row, was: string, key: string): Row {
    if r.profileKey == Some(was) then r.(profileKey := Some(key)) else r
  }

  /** A rename fails exactly when two rows would then have one identity, or both keys have a record. */
  lemma RenameFailsExactly(t: Tables, was: string, key: string, now: real)
    requires was != key
    ensures Rekey(t, Some(was), key, now).None? <==>
            || (exists i, j :: 0 <= i < j < |t.rows| &&
                  SameIdentity(MovedTo(t.rows[i], was, key), MovedTo(t.rows[j], was, key)))
            || (Known(t.profiles, was) && Known(t.profiles, key))
  {
    KnownIs(t.profiles, was);
    KnownIs(t.profiles, key);
    var rows := Each(t.rows, Renamed(Some(was), key));
    assert forall i :: 0 <= i < |rows| ==> rows[i] == MovedTo(t.rows[i], was, key);
  }

  /** And when it does not, the profile's record is under the new key, and no other changes. */
  lemma RenameKeepsRecords(t: Tables, was: string, key: string, now: real, i: nat)
    requires was != key && Rekey(t, Some(was), key, now).Some? && i < |t.profiles|
    ensures var after, p := Rekey(t, Some(was), key, now).value, t.profiles[i];
      && |after.profiles| == |t.profiles| && after.attempts == t.attempts
      && (p.key != was ==> after.profiles[i] == p)
      && (p.key == was ==> after.profiles[i] == p.(key := key, updatedAt := now))
  {
  }
}
