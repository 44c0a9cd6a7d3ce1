/** Whole runs of the radio: what ends up stored, and which arrivals are lost. */
module RadioRuns {
  import opened Common
  import opened ChatPaging
  import R = ChatReading
  import opened ChatRows
  import opened ChatTable
  import opened ChatChanges
  import opened ChatProfiles
  import opened ProfileKeys
  import opened Radio

  /** A packet filed at any point of a run, live or replayed, has exactly one row under its profile ever after,
      however often it is delivered again. */
  lemma FiledPacketStaysStoredOnce(tables: Tables, before: seq<Action>, a: Action, after: seq<Action>)
    requires Sound(tables)
    requires var s := Run(Initial(tables), before); FiledBy(s, a).Some? && FiledBy(s, a).value.packetId.Some?
    ensures var s := Run(Initial(tables), before);
      Copies(Run(Initial(tables), before + [a] + after).recorder.tables.rows,
             PacketIdentity(Bound(s.recorder.bound), FiledBy(s, a).value).value) == 1
  {
    var s0 := Initial(tables);
    var s := Run(s0, before);
    RunSteady(s0, before);
    var p := FiledBy(s, a).value;
    StepWrites(s, a);
    RunAppend(s0, before, a);
    TakenAfterAdd(s.recorder.tables, s.recorder.ns, p);
    RunConcat(s0, before + [a], after);
    RowsGrow(Run(s0, before + [a]), after);
    RunSteady(s0, before + [a] + after);
    StillOneCopy(Run(s0, before + [a]).recorder.tables.rows, Run(s0, before + [a] + after).recorder.tables.rows,
                 PacketIdentity(s.recorder.ns, p).value);
  }

  lemma StillOneCopy(rows: seq<Row>, longer: seq<Row>, identity: Identity)
    requires rows <= longer && Taken(rows, Some(identity)) && IndexHolds(longer)
    ensures Copies(longer, identity) == 1
  {
    TakenStays(rows, longer, Some(identity));
    IndexAllowsOneCopy(longer, identity);
  }

  /** A conversation shows a message when its row passes the filter. */
  lemma ShownExactly(t: Tables, row: Row, ns: Namespace, q: Query)
    requires Sound(t) && row in t.rows
    ensures row in History(t.rows, ns, q) <==> Passes(ns, q, row)
  {
    SoundIsTable(t);
    R.HistoryHolds(t.rows, ns, q);
  }

  /** The identity a channel is known by is the last one the radio gave for it that was not blank. */
  lemma {:induction false} ChannelIsKnownByLastIdentity(channels: seq<ChannelInfo>, c: int, key: string)
    ensures c in KeysOf(channels) && KeysOf(channels)[c] == key <==>
            exists i :: 0 <= i < |channels| && channels[i] == ChannelInfo(c, key) && key != "" &&
              forall j :: i < j < |channels| && channels[j].index == c ==> channels[j].stableKey == ""
  {
    if channels != [] {
      var n := |channels| - 1;
      ChannelIsKnownByLastIdentity(channels[..n], c, key);
    }
  }

  /** A text filed under a profile becomes one new row with its sender (`unknown` when that is blank), dated by its
      sender, else by the radio, else by its receipt. It shows up in exactly one place: the conversation with its sender
      when it is direct, otherwise its channel, under that channel's identity as far as it is known. */
  lemma FiledTextAppearsWhereItBelongs(r: Recorder, m: Message, q: Query)
    requires Sound(r.tables) && r.bound.Some? && r.ns == Bound(r.bound)
    requires !Taken(r.tables.rows, PacketIdentity(r.ns, Filed(r.channelKeys, m)))
    ensures var after := Record(r, m).tables;
      Sound(after) && |after.rows| == |r.tables.rows| + 1 && after.nextRow == r.tables.nextRow + 1 &&
      var row := after.rows[|r.tables.rows|];
      var channel := if m.channelIndex.Some? then m.channelIndex.value else 0;
      row.id == r.tables.nextRow && row.text == m.text && row.packetId == m.packetId &&
      row.direction == Incoming && row.profileKey == r.bound &&
      row.nodeId == Some(if m.sender.None? || m.sender == Some("") then "unknown" else m.sender.value) &&
      row.senderName == m.longName && row.senderShortName == m.shortName && row.channelIndex == channel &&
      row.radioRxAt == m.radioRxAt && row.receivedAt == row.createdAt == m.receivedAt &&
      row.localSentAt.None? && row.deliveryState.None? &&
      SqlTime(row) == (if m.originSentAt.Some? then m.originSentAt.value
                       else if m.radioRxAt.Some? then m.radioRxAt.value else m.receivedAt) &&
      (row in History(after.rows, r.ns, q) <==>
         if m.isDirect && m.sender.Some? then q == Dm(m.sender.value)
         else q.Channel? && q.index == channel &&
              (m.isDirect || q.key.None? || channel !in r.channelKeys || q.key == Some(r.channelKeys[channel])))
  {
    var p := Filed(r.channelKeys, m);
    AddIncomingSound(r.tables, r.ns, p);
    var after := AddIncoming(r.tables, r.ns, p).0;
    ShownExactly(after, after.rows[|r.tables.rows|], r.ns, q);
  }

  /** A text sent under a profile shows up in the conversation with its destination, or in its channel. */
  lemma SentTextAppearsWhereItBelongs(t: Tables, key: string, d: Draft, q: Query)
    requires Sound(t)
    ensures var after := AddOutgoing(t, Bound(Some(key)), d);
      Sound(after) && |after.rows| == |t.rows| + 1 && after.nextRow == t.nextRow + 1 &&
      var row := after.rows[|t.rows|];
      row.id == t.nextRow && row.text == d.text && row.direction == Outgoing && row.profileKey == Some(key) &&
      row.packetId.None? && row.nodeId.None? && row.senderName == Some("YOU") && row.senderShortName.None? &&
      row.localSentAt == Some(d.localSentAt) && row.receivedAt == row.createdAt == SqlTime(row) == d.localSentAt &&
      row.deliveryState == Some(d.deliveryState) &&
      (row in History(after.rows, Bound(Some(key)), q) <==>
         if d.dmNodeId.Some? then q == Dm(d.dmNodeId.value)
         else q.Channel? && q.index == d.channelIndex && (q.key.None? || d.channelKey.None? || q.key == d.channelKey))
  {
    AddOutgoingSound(t, Bound(Some(key)), d);
    var after := AddOutgoing(t, Bound(Some(key)), d);
    ShownExactly(after, after.rows[|t.rows|], Bound(Some(key)), q);
  }

  /** Handling ONLINE binds the connection's own pairing, leaves a record of it, takes its channels' identities and
      files nothing. */
  lemma OnlineBindsThePairing(tables: Tables, actions: seq<Action>, now: real)
    requires Sound(tables) && Enabled(Run(Initial(tables), actions), Online(now))
    ensures var s := Run(Initial(tables), actions); var after := Step(s, Online(now)).recorder;
      var key := CanonicalKey(s.phase.info.nodeId, s.phase.info.shortName);
      && after.bound == key && after.ns == Bound(key) && after.channelKeys == KeysOf(s.phase.info.channels)
      && (key.Some? ==> exists p :: p in after.tables.profiles && p.key == key.value)
      && after.tables.rows == s.recorder.tables.rows && after.tables.attempts == s.recorder.tables.attempts
  {
    var s := Run(Initial(tables), actions);
    ProfileIsEnsured(s.recorder.tables, s.phase.info.nodeId, s.phase.info.shortName, now);
  }

  /** A replayed text is filed exactly when the connection that replays it has a resolved profile. */
  lemma ReplayFilesExactly(tables: Tables, actions: seq<Action>)
    requires Sound(tables)
    requires var s := Run(Initial(tables), actions); Enabled(s, Replay) && s.replaying[0].wire.Text?
    ensures var s := Run(Initial(tables), actions);
      FiledBy(s, Replay).Some? <==> CanonicalKey(s.phase.info.nodeId, s.phase.info.shortName).Some?
  {
    RunSteady(Initial(tables), actions);
  }

  /** A text that arrives on the current interface is filed exactly when ONLINE has been handled for it and named a
      resolved profile. Between the interface being assigned and ONLINE being handled it is neither held nor filed. */
  lemma LiveArrivalIsFiledExactly(tables: Tables, actions: seq<Action>, m: Message)
    requires Sound(tables) && Run(Initial(tables), actions).interface.Some?
    ensures var s := Run(Initial(tables), actions); var a := Arrive(Text(m), s.interface);
      (FiledBy(s, a).Some? <==>
         (s.phase.Handled? || s.phase.Live?) && CanonicalKey(s.phase.info.nodeId, s.phase.info.shortName).Some?) &&
      (FiledBy(s, a).None? ==> Step(s, a) == s)
  {
    RunSteady(Initial(tables), actions);
  }

  /** Such a moment exists in every connection: the text below is gone. */
  lemma ArrivalBeforeBindingIsLost(tables: Tables, info: Info, m: Message)
    requires Sound(tables)
    ensures exists actions :: var s := Run(Initial(tables), actions);
      s.phase == Opened(info) && s.interface == Some(1) && Step(s, Arrive(Text(m), Some(1))) == s
  {
    var s0 := Initial(tables);
    RunAppend(s0, [], Begin);
    RunAppend(s0, [Begin], Assign(1));
    RunAppend(s0, [Begin, Assign(1)], Ready(info));
    assert [] + [Begin] == [Begin] && [Begin] + [Assign(1)] == [Begin, Assign(1)];
    assert [Begin, Assign(1)] + [Ready(info)] == [Begin, Assign(1), Ready(info)];
    assert Run(s0, []) == s0;
    var s := Run(s0, [Begin, Assign(1), Ready(info)]);
    assert s.phase == Opened(info) && s.interface == Some(1);
    RunSteady(s0, [Begin, Assign(1), Ready(info)]);
    assert s.recorder.bound.None?;
    assert Step(s, Arrive(Text(m), Some(1))) == s;
  }

  /** A text from an interface still being opened is held exactly while there is room, and otherwise dropped;
      a failed attempt or a lost link drops nothing that was held. */
  lemma HeldExactlyWhileOpening(tables: Tables, actions: seq<Action>, wire: Wire, from: nat)
    requires Sound(tables) && Run(Initial(tables), actions).interface != Some(from)
    ensures var s := Run(Initial(tables), actions);
      Step(s, Arrive(wire, Some(from))) ==
        (if s.phase.Opening? && |s.arrivals| < 256
         then s.(arrivals := s.arrivals + [Held(wire, from, s.attempt)]) else s) &&
      Step(s, Fail).arrivals == Step(s, Lost).arrivals == Step(s, CloseOutside).arrivals == s.arrivals
  {
    RunSteady(Initial(tables), actions);
  }

  /** An attempt can fail from its beginning until it is ready; either way it ends down, without interface or
      configuration, and keeps what was held. */
  lemma FailureEndsTheAttempt(tables: Tables, actions: seq<Action>)
    requires Sound(tables)
    ensures var s := Run(Initial(tables), actions); var after := Step(s, Fail);
      if s.phase.Opening? || s.phase.Assigned?
      then after.phase.Down? && !after.connecting && after.interface.None? && after.snapshot.None? &&
           after.arrivals == s.arrivals && after.recorder == s.recorder && after.generation == s.generation
      else after == s
  {
    RunSteady(Initial(tables), actions);
  }

  /** The configuration on offer is renewed exactly while there is an interface. */
  lemma RefreshOffersWhatIsConnected(tables: Tables, actions: seq<Action>)
    requires Sound(tables)
    ensures var s := Run(Initial(tables), actions); var after := Step(s, Refresh);
      (after.snapshot.Some? <==> s.interface.Some?) &&
      (after.snapshot.Some? ==> after.snapshot == Some(s.generation)) &&
      after.(snapshot := s.snapshot) == s
  {
    RunSteady(Initial(tables), actions);
  }

  /** Once a connection is up and its drain is done, every packet held on the way there has been replayed. */
  lemma DrainedMeansAllReplayed(tables: Tables, actions: seq<Action>)
    requires Sound(tables)
    requires var s := Run(Initial(tables), actions); s.phase.Live? && s.replaying == [] && s.arrivals == []
    ensures HeldIn(Initial(tables), actions) == ReplayedIn(Initial(tables), actions)
  {
    HeldIsReplayedOnceInOrder(tables, actions);
  }

  // ----- Held, replayed, filed

  /** The state in which the n-th replay of a run is taken. */
  function AtReplay(s: Link, actions: seq<Action>, n: nat): Link
    requires n < |ReplayedIn(s, actions)|
  {
    var front := actions[..|actions| - 1];
    if n < |ReplayedIn(s, front)| then AtReplay(s, front, n) else Run(s, front)
  }

  /** Where in the run that is. */
  lemma {:induction false} ReplayTaken(s: Link, actions: seq<Action>, n: nat) returns (i: nat)
    requires n < |ReplayedIn(s, actions)|
    ensures i < |actions| && actions[i] == Replay && Run(s, actions[..i]) == AtReplay(s, actions, n)
    ensures Enabled(Run(s, actions[..i]), Replay)
    ensures Run(s, actions[..i]).replaying[0] == ReplayedIn(s, actions)[n]
  {
    var front, last := actions[..|actions| - 1], actions[|actions| - 1];
    if n < |ReplayedIn(s, front)| {
      i := ReplayTaken(s, front, n);
      assert front[..i] == actions[..i];
    } else {
      i := |actions| - 1;
      assert ReplayedBy(Run(s, front), last) != [];
    }
  }

  /** The profile of the connection a state belongs to. */
  function ProfileOf(s: Link): Option<string> {
    if s.phase.Live? then CanonicalKey(s.phase.info.nodeId, s.phase.info.shortName) else None
  }

  lemma ReplayFiles(tables: Tables, actions: seq<Action>, m: Message)
    requires Sound(tables) && Enabled(Run(Initial(tables), actions), Replay)
    requires var t := Run(Initial(tables), actions); t.replaying[0].wire == Text(m) && ProfileOf(t).Some?
    ensures var t := Run(Initial(tables), actions);
      t.recorder.bound == ProfileOf(t) && FiledBy(t, Replay) == Some(Filed(t.recorder.channelKeys, m))
  {
    ReplaysAreBound(tables, actions);
  }

  lemma ReplayIsStoredOnce(tables: Tables, before: seq<Action>, after: seq<Action>, m: Message, t: Link)
    requires Sound(tables) && t == Run(Initial(tables), before)
    requires Enabled(t, Replay) && t.replaying[0].wire == Text(m) && m.packetId.Some? && ProfileOf(t).Some?
    ensures Copies(Run(Initial(tables), before + [Replay] + after).recorder.tables.rows,
                   PacketIdentity(Bound(ProfileOf(t)), Filed(t.recorder.channelKeys, m)).value) == 1
  {
    ReplayFiles(tables, before, m);
    FiledPacketStaysStoredOnce(tables, before, Replay, after);
  }

  lemma SplitAt(actions: seq<Action>, i: nat)
    requires i < |actions|
    ensures actions == actions[..i] + [actions[i]] + actions[i + 1..]
  {
  }

  /** Over every run: the n-th replay is of the n-th packet held, and when that is a text with a packet ID and the
      connection replaying it has a resolved profile, there is exactly one copy of it under that profile ever after. */
  lemma HeldTextIsStoredOnce(tables: Tables, actions: seq<Action>, n: nat)
    requires Sound(tables) && n < |ReplayedIn(Initial(tables), actions)|
    ensures n < |HeldIn(Initial(tables), actions)|
    ensures var held := HeldIn(Initial(tables), actions)[n]; var t := AtReplay(Initial(tables), actions, n);
      && Enabled(t, Replay) && t.replaying[0] == held
      && (held.wire.Text? && held.wire.message.packetId.Some? && ProfileOf(t).Some? ==>
            Copies(Run(Initial(tables), actions).recorder.tables.rows,
                   PacketIdentity(Bound(ProfileOf(t)), Filed(t.recorder.channelKeys, held.wire.message)).value) == 1)
  {
    var s0 := Initial(tables);
    HeldIsReplayedOnceInOrder(tables, actions);
    var held := HeldIn(s0, actions)[n];
    assert held == ReplayedIn(s0, actions)[n];
    var i := ReplayTaken(s0, actions, n);
    var t := AtReplay(s0, actions, n);
    if held.wire.Text? && held.wire.message.packetId.Some? && ProfileOf(t).Some? {
      SplitAt(actions, i);
      ReplayIsStoredOnce(tables, actions[..i], actions[i + 1..], held.wire.message, t);
    }
  }
}
