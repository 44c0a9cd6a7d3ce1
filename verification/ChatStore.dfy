/** The store object: its tables, and the profile it is bound to. */
module ChatStore {
  import opened Common
  import opened ChatRows
  import opened ChatPaging
  import opened ChatTable
  import T = ChatTable
  import P = ProfileKeys

  method IsTaken(rows: seq<Row>, identity: Option<Identity>) returns (taken: bool)
    ensures taken == Taken(rows, identity)
  {
    taken := false;
    if identity.Some? {
      for i := 0 to |rows|
        invariant taken <==> exists k :: 0 <= k < i && IdentityOf(rows[k]) == identity
      {
        if IdentityOf(rows[i]) == identity {
          taken := true;
        }
      }
    }
  }

  method FindDuplicate(rows: seq<Row>, ns: Namespace, p: Packet) returns (found: Option<Row>)
    ensures found == FirstDuplicate(rows, ns, p)
  {
    for i := 0 to |rows|
      invariant FirstDuplicate(rows, ns, p) == FirstDuplicate(rows[i..], ns, p)
    {
      if IsDuplicate(ns, p, rows[i]) {
        return Some(rows[i]);
      }
    }
    return None;
  }

  /** The unique index, checked over a rewritten table. */
  method CheckIndex(rows: seq<Row>) returns (ok: bool)
    ensures ok == IndexHolds(rows)
  {
    for j := 0 to |rows|
      invariant forall i, k :: 0 <= i < k < j ==> !SameIdentity(rows[i], rows[k])
    {
      for i := 0 to j
        invariant forall k :: 0 <= k < i ==> !SameIdentity(rows[k], rows[j])
      {
        if SameIdentity(rows[i], rows[j]) {
          return false;
        }
      }
    }
    return true;
  }

  method Rewrite(rows: seq<Row>, f: Row -> Row) returns (after: seq<Row>)
    ensures after == Each(rows, f)
  {
    after := [];
    for i := 0 to |rows|
      invariant after == Each(rows[..i], f)
    {
      after := after + [f(rows[i])];
    }
    assert rows[..|rows|] == rows;
  }

  method Keep(rows: seq<Row>, keep: Row -> bool) returns (kept: seq<Row>)
    ensures kept == Filter(rows, keep)
  {
    kept := [];
    for i := 0 to |rows|
      invariant kept == Filter(rows[..i], keep)
    {
      assert rows[..i + 1][..i] == rows[..i];
      if keep(rows[i]) {
        kept := kept + [rows[i]];
      }
    }
    assert rows[..|rows|] == rows;
  }

  method DropAttempts(attempts: seq<Attempt>, gone: set<int>) returns (kept: seq<Attempt>)
    ensures kept == FilterAttempts(attempts, gone)
  {
    kept := [];
    for i := 0 to |attempts|
      invariant kept == FilterAttempts(attempts[..i], gone)
    {
      assert attempts[..i + 1][..i] == attempts[..i];
      if attempts[i].messageId !in gone {
        kept := kept + [attempts[i]];
      }
    }
    assert attempts[..|attempts|] == attempts;
  }

  class ChatStore {
    var rows: seq<Row>
    var attempts: seq<Attempt>
    var profiles: seq<Profile>
    var nextRow: nat
    var nextAttempt: nat
    var ns: Namespace

    ghost function State(): Tables
      reads this
    {
      Tables(rows, attempts, profiles, nextRow, nextAttempt)
    }

    ghost predicate Valid()
      reads this
    {
      Sound(State())
    }

    constructor ()
      ensures Valid() && rows == [] && attempts == [] && profiles == [] && ns == Unbound
    {
      rows, attempts, profiles, nextRow, nextAttempt, ns := [], [], [], 1, 1, Unbound;
    }

    method SetActiveProfile(key: Option<string>)
      modifies this`ns
      ensures ns == Bound(key)
    {
      ns := Bound(key);
    }

    method EnsureProfile(id: Option<string>, name: Option<string>, now: real) returns (key: Option<string>)
      requires Valid()
      modifies this`profiles
      ensures Valid() && State() == T.EnsureProfile(old(State()), id, name, now)
      ensures key == P.CanonicalKey(id, name)
      ensures key.Some? ==> HasProfile(profiles, key.value)
    {
      key := P.CanonicalKey(id, name);
      if key.Some? && !HasProfile(profiles, key.value) {
        profiles := profiles + [Profile(key.value, P.Normalize(id), P.ShortName(name), now, now)];
        assert profiles[|profiles| - 1].key == key.value;
      }
    }

    method AddIncoming(p: Packet) returns (added: Added)
      requires Valid()
      modifies this`rows, this`nextRow
      ensures Valid() && (State(), added) == T.AddIncoming(old(State()), ns, p)
    {
      AddIncomingSound(State(), ns, p);
      var taken := IsTaken(rows, PacketIdentity(ns, p));
      if !taken {
        added := Inserted(nextRow);
        rows := rows + [IncomingRow(nextRow, ns, p)];
        nextRow := nextRow + 1;
      } else {
        var found := FindDuplicate(rows, ns, p);
        added := if found.None? then NotStored else Duplicate(found.value.id);
      }
    }

    method AddOutgoing(d: Draft) returns (id: nat)
      requires Valid()
      modifies this`rows, this`nextRow
      ensures Valid() && id == old(nextRow) && State() == T.AddOutgoing(old(State()), ns, d)
    {
      AddOutgoingSound(State(), ns, d);
      id := nextRow;
      rows := rows + [OutgoingRow(nextRow, ns, d)];
      nextRow := nextRow + 1;
    }

    method AddSendAttempt(messageId: int, startedAt: real, state: string) returns (id: nat)
      requires Valid()
      modifies this`attempts, this`nextAttempt
      ensures Valid() && id == old(nextAttempt) && State() == AddAttempt(old(State()), messageId, startedAt, state)
    {
      id := nextAttempt;
      attempts := attempts + [Attempt(nextAttempt, messageId, None, state, startedAt, None, None)];
      nextAttempt := nextAttempt + 1;
    }

    /** `ok` is false when the index refuses the new packet ID, and then nothing has changed. */
    method UpdateDeliveryState(id: int, state: string, attempt: Option<int>, packetId: Option<int>,
                               completedAt: Option<real>, error: Option<string>) returns (ok: bool)
      requires Valid()
      modifies this`rows, this`attempts
      ensures Valid()
      ensures var after := UpdateDelivery(old(State()), id, state, attempt, packetId, completedAt, error);
        ok == after.Some? && State() == (if ok then after.value else old(State()))
    {
      var after := Rewrite(rows, Delivered(id, state, packetId));
      ok := CheckIndex(after);
      if ok {
        UpdateDeliverySound(State(), id, state, attempt, packetId, completedAt, error);
        rows := after;
        attempts := AttemptsUpdated(attempts, id, state, attempt, packetId, completedAt, error);
      }
    }

    method UpdateMessageChronology(id: int, localSentAt: real)
      requires Valid()
      modifies this`rows
      ensures Valid() && State() == UpdateChronology(old(State()), id, localSentAt)
    {
      UpdateChronologySound(State(), id, localSentAt);
      rows := Rewrite(rows, Moved(id, localSentAt));
    }

    method DeleteMessage(id: int)
      requires Valid()
      modifies this`rows, this`attempts
      ensures Valid() && State() == T.DeleteMessage(old(State()), id)
    {
      DeletesSound(State(), NotId(id));
      attempts := DropAttempts(attempts, {id});
      rows := Keep(rows, NotId(id));
    }

    method DeleteDmConversation(dm: string) returns (removed: nat)
      requires Valid()
      modifies this`rows, this`attempts
      ensures Valid() && State() == DeleteConversation(old(State()), ns, dm)
      ensures removed == old(|rows|) - |rows|
    {
      DeletesSound(State(), Others(ns, dm));
      attempts := DropAttempts(attempts, IdsOf(rows, Conversation(ns, dm)));
      var kept := Keep(rows, Others(ns, dm));
      FilterShrinks(rows, Others(ns, dm));
      removed := |rows| - |kept|;
      rows := kept;
    }

    /** A live rename; `ok` is false when it would collide, and then nothing has changed. */
    method MigrateProfileAssociation(was: Option<string>, key: string, now: real) returns (ok: bool)
      requires Valid()
      modifies this`rows, this`profiles
      ensures Valid()
      ensures var after := Rekey(old(State()), was, key, now);
        ok == after.Some? && State() == (if ok then after.value else old(State()))
    {
      if was == Some(key) {
        return true;
      }
      var after := Rewrite(rows, Renamed(was, key));
      ok := CheckIndex(after);
      ok := ok && !(was.Some? && HasProfile(profiles, was.value) && HasProfile(profiles, key));
      if ok {
        RekeySound(State(), was, key, now);
        rows := after;
        profiles := ProfilesRenamed(profiles, was, key, now);
      }
    }

    method LoadRecent(q: Query, limit: int) returns (page: Option<HistoryPage>)
      requires Valid()
      ensures page == Recent(rows, ns, q, limit)
    {
      SoundIsTable(State());
      page := LoadRecentPage(rows, ns, q, limit);
    }

    method LoadOlder(q: Query, id: int, limit: int) returns (page: Option<HistoryPage>)
      requires Valid()
      ensures page == Older(rows, ns, q, id, limit)
    {
      SoundIsTable(State());
      page := LoadOlderPage(rows, ns, q, id, limit);
    }
  }

  lemma {:induction false} FilterShrinks(rows: seq<Row>, keep: Row -> bool)
    ensures |Filter(rows, keep)| <= |rows|
  {
    if rows != [] {
      FilterShrinks(rows[..|rows| - 1], keep);
    }
  }
}
