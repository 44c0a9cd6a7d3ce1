/** The connection to the radio and the recorder that listens to it, as a machine. The steps of the connecting
    thread, of the SDK's reader thread and of the environment interleave freely; a step that cannot happen in a
    state leaves it alone. */
module Radio {
  import opened Common
  import opened ChatPaging
  import opened ChatRows
  import opened ChatTable
  import opened ProfileKeys

  // ----- The recorder

  datatype Message = Message(packetId: Option<int>, sender: Option<string>, longName: Option<string>,
                             shortName: Option<string>, channelIndex: Option<int>, text: string, isDirect: bool,
                             originSentAt: Option<real>, radioRxAt: Option<real>, receivedAt: real)

  /** What the reader thread hands over: a text message, or a packet that does not parse as one. */
  datatype Wire = Garbled | Text(message: Message)

  datatype ChannelInfo = ChannelInfo(index: int, stableKey: string)

  datatype Info = Info(nodeId: Option<string>, shortName: Option<string>, channels: seq<ChannelInfo>)

  datatype Recorder = Recorder(channelKeys: map<int, string>, bound: Option<string>, ns: Namespace, tables: Tables)

  /** The last non-empty key given for each channel. */
  function KeysOf(channels: seq<ChannelInfo>): map<int, string> {
    if channels == [] then map[]
    else
      var front := KeysOf(channels[..|channels| - 1]);
      var last := channels[|channels| - 1];
      if last.stableKey == "" then front else front[last.index := last.stableKey]
  }

  function Bind(r: Recorder, info: Info, now: real): Recorder {
    var key := CanonicalKey(info.nodeId, info.shortName);
    Recorder(KeysOf(info.channels), key, Bound(key), EnsureProfile(r.tables, info.nodeId, info.shortName, now))
  }

  function Unbind(r: Recorder): Recorder {
    r.(bound := None, ns := Bound(None))
  }

  function KeyFor(keys: map<int, string>, channel: int): Option<string> {
    if channel in keys then Some(keys[channel]) else None
  }

  /** A message as the recorder files it. */
  function Filed(keys: map<int, string>, m: Message): Packet {
    var channel := if m.channelIndex.None? then 0 else m.channelIndex.value;
    Packet(m.packetId, if m.sender.None? || m.sender.value == "" then "unknown" else m.sender.value,
           m.longName, m.shortName, channel, m.text, m.originSentAt, m.radioRxAt, m.receivedAt,
           if m.isDirect then m.sender else None, if m.isDirect then None else KeyFor(keys, channel))
  }

  function Record(r: Recorder, m: Message): Recorder {
    if r.bound.None? then r
    else r.(tables := AddIncoming(r.tables, r.ns, Filed(r.channelKeys, m)).0)
  }

  // ----- The link

  const MAX_CONNECT_ARRIVALS: nat := 256

  /** Where the connecting thread is. `Opened` has yielded ONLINE, `Down` an ERROR or OFFLINE event; `Handled` and
      `Waiting` are when the consumer comes back. */
  datatype Phase =
    | Waiting | Opening | Assigned | Opened(info: Info) | Handled(info: Info) | Live(info: Info) | Down

  /** A packet caught while an interface was being opened, with the interface that delivered it and the number of the
      attempt under way. The program keeps the interface and looks at neither again. */
  datatype Held = Held(wire: Wire, from: nat, attempt: nat)

  datatype Link = Link(phase: Phase, interface: Option<nat>, connecting: bool, attempt: nat,
                       arrivals: seq<Held>, replaying: seq<Held>,
                       generation: nat, snapshot: Option<nat>, recorder: Recorder)

  datatype Action =
    | Begin
    | Assign(interface: nat)
    | Ready(info: Info)
    | Fail
    | Online(now: real)
    | Swap
    | Replay
    | Refresh
    | Lost
    | Notice
    | CloseOutside
    | Arrive(wire: Wire, from: Option<nat>)

  function Initial(tables: Tables): Link {
    Link(Waiting, None, false, 0, [], [], 0, None, Recorder(map[], None, Unbound, tables))
  }

  function Deliver(s: Link, wire: Wire): Link {
    if wire.Garbled? then s else s.(recorder := Record(s.recorder, wire.message))
  }

  predicate Stale(s: Link, from: Option<nat>) {
    from.Some? && s.interface != from
  }

  function Arrival(s: Link, wire: Wire, from: Option<nat>): Link {
    if Stale(s, from) then
      if s.connecting && |s.arrivals| < MAX_CONNECT_ARRIVALS
      then s.(arrivals := s.arrivals + [Held(wire, from.value, s.attempt)]) else s
    else Deliver(s, wire)
  }

  function Closed(s: Link): Link {
    s.(interface := None, snapshot := None)
  }

  predicate Permitted(phase: Phase, connected: bool, drained: bool, a: Action) {
    match a
    case Begin => phase.Waiting?
    case Assign(_) => phase.Opening?
    case Ready(_) => phase.Assigned? && connected
    case Fail => phase.Opening? || phase.Assigned?
    case Online(_) => phase.Opened?
    case Swap => phase.Handled?
    case Replay => phase.Live? && !drained
    case Lost => phase.Live? && drained
    case Notice => phase.Down?
    case Refresh => true
    case CloseOutside => true
    case Arrive(_, _) => true
  }

  predicate Enabled(s: Link, a: Action) {
    Permitted(s.phase, s.interface.Some?, s.replaying == [], a)
  }

  /** `Notice` is the consumer handling ERROR or OFFLINE; `CloseOutside` is a close by another thread, as when the
      target changes. */
  function Step(s: Link, a: Action): Link {
    if !Enabled(s, a) then s
    else
      match a
      case Begin => s.(phase := Opening, connecting := true, attempt := s.attempt + 1)
      case Assign(i) => s.(phase := Assigned, connecting := false, interface := Some(i))
      case Ready(info) => s.(phase := Opened(info), generation := s.generation + 1, snapshot := Some(s.generation + 1))
      case Fail => Closed(s).(phase := Down, connecting := false)
      case Online(now) => s.(phase := Handled(s.phase.info), recorder := Bind(s.recorder, s.phase.info, now))
      case Swap => s.(phase := Live(s.phase.info), replaying := s.arrivals, arrivals := [])
      case Replay => Deliver(s.(replaying := s.replaying[1..]), s.replaying[0].wire)
      case Refresh => s.(snapshot := if s.interface.None? then None else Some(s.generation))
      case Lost => Closed(s).(phase := Down)
      case Notice => s.(phase := Waiting, recorder := Unbind(s.recorder))
      case CloseOutside => Closed(s)
      case Arrive(wire, from) => Arrival(s, wire, from)
  }

  function Run(s: Link, actions: seq<Action>): Link {
    if actions == [] then s else Step(Run(s, actions[..|actions| - 1]), actions[|actions| - 1])
  }

  // ----- What was held, and what was replayed

  function HeldBy(s: Link, a: Action): seq<Held> {
    if a.Arrive? && Stale(s, a.from) && s.connecting && |s.arrivals| < MAX_CONNECT_ARRIVALS
    then [Held(a.wire, a.from.value, s.attempt)] else []
  }

  function ReplayedBy(s: Link, a: Action): seq<Held> {
    if a.Replay? && Enabled(s, a) then [s.replaying[0]] else []
  }

  function HeldIn(s: Link, actions: seq<Action>): seq<Held> {
    if actions == [] then []
    else
      var front := actions[..|actions| - 1];
      HeldIn(s, front) + HeldBy(Run(s, front), actions[|actions| - 1])
  }

  function ReplayedIn(s: Link, actions: seq<Action>): seq<Held> {
    if actions == [] then []
    else
      var front := actions[..|actions| - 1];
      ReplayedIn(s, front) + ReplayedBy(Run(s, front), actions[|actions| - 1])
  }

  ghost predicate Steady(s: Link) {
    && (s.connecting <==> s.phase.Opening?)
    && (s.phase.Waiting? || s.phase.Opening? || s.phase.Down? ==> s.interface.None?)
    && (if s.phase.Live? then s.arrivals == [] else s.replaying == [])
    && |s.arrivals| <= MAX_CONNECT_ARRIVALS
    && (s.phase.Handled? || s.phase.Live? ==>
          s.recorder.bound == CanonicalKey(s.phase.info.nodeId, s.phase.info.shortName))
    && (!s.phase.Handled? && !s.phase.Live? && !s.phase.Down? ==> s.recorder.bound.None?)
    && (s.recorder.bound.Some? ==> s.recorder.ns == Bound(s.recorder.bound) && s.recorder.bound.value != "")
    && (s.snapshot.Some? ==> s.interface.Some? && s.snapshot == Some(s.generation))
    && Sound(s.recorder.tables)
  }

  lemma EnsureProfileSound(t: Tables, id: Option<string>, name: Option<string>, now: real)
    requires Sound(t)
    ensures Sound(EnsureProfile(t, id, name, now))
  {
  }

  lemma BindSteady(r: Recorder, info: Info, now: real)
    requires Sound(r.tables)
    ensures Sound(Bind(r, info, now).tables)
    ensures Bind(r, info, now).bound.Some? ==> Bind(r, info, now).bound.value != ""
  {
    EnsureProfileSound(r.tables, info.nodeId, info.shortName, now);
    if CanonicalKey(info.nodeId, info.shortName).Some? {
      SplitInvertsCanonicalKey(info.nodeId, info.shortName);
    }
  }

  lemma DeliverSteady(s: Link, wire: Wire)
    requires Steady(s)
    ensures Steady(Deliver(s, wire))
  {
    if wire.Text? && s.recorder.bound.Some? {
      AddIncomingSound(s.recorder.tables, s.recorder.ns, Filed(s.recorder.channelKeys, wire.message));
    }
  }

  /** From the handling of ONLINE to the loss of the link the profile bound is that connection's own, none once the loss
      was handled and before the next ONLINE is; nothing is held while a connection is live, nothing is replayed while
      none is; and the configuration on offer is never a previous connection's. */
  lemma StepSteady(s: Link, a: Action)
    requires Steady(s)
    ensures Steady(Step(s, a))
  {
    if Enabled(s, a) {
      match a
      case Online(now) => BindSteady(s.recorder, s.phase.info, now);
      case Replay => DeliverSteady(s.(replaying := s.replaying[1..]), s.replaying[0].wire);
      case Arrive(wire, from) => DeliverSteady(s, wire);
      case _ =>
    }
  }

  lemma {:induction false} RunSteady(s: Link, actions: seq<Action>)
    requires Steady(s)
    ensures Steady(Run(s, actions))
  {
    if actions != [] {
      RunSteady(s, actions[..|actions| - 1]);
      StepSteady(Run(s, actions[..|actions| - 1]), actions[|actions| - 1]);
    }
  }

  lemma StepConserves(s: Link, a: Action)
    requires Steady(s)
    ensures s.replaying + s.arrivals + HeldBy(s, a) == ReplayedBy(s, a) + Step(s, a).replaying + Step(s, a).arrivals
  {
    if a.Replay? {
      if Enabled(s, a) {
        assert s.replaying == [s.replaying[0]] + s.replaying[1..];
      }
    } else if a.Arrive? {
      assert s.replaying + s.arrivals + HeldBy(s, a) == [] + s.replaying + (s.arrivals + HeldBy(s, a));
    } else {
      QuietStepKeepsQueues(s, a);
    }
  }

  lemma QuietStepKeepsQueues(s: Link, a: Action)
    requires Steady(s) && !a.Replay? && !a.Arrive?
    ensures Step(s, a).replaying + Step(s, a).arrivals == s.replaying + s.arrivals
  {
  }

  /** Over every interleaving of arrivals, failed and successful connects, ONLINE handling, drains and lost links:
      what was held is what was replayed, then what is being replayed, then what is still held, in arrival order. */
  lemma {:induction false} HeldIsReplayedOnceInOrder(tables: Tables, actions: seq<Action>)
    requires Sound(tables)
    ensures var s := Run(Initial(tables), actions);
      HeldIn(Initial(tables), actions) == ReplayedIn(Initial(tables), actions) + s.replaying + s.arrivals &&
      |s.arrivals| <= MAX_CONNECT_ARRIVALS
  {
    var s0 := Initial(tables);
    RunSteady(s0, actions);
    if actions != [] {
      var front, last := actions[..|actions| - 1], actions[|actions| - 1];
      HeldIsReplayedOnceInOrder(tables, front);
      RunSteady(s0, front);
      var s := Run(s0, front);
      StepConserves(s, last);
      Regroup(HeldIn(s0, front), ReplayedIn(s0, front), s.replaying, s.arrivals, HeldBy(s, last),
              ReplayedBy(s, last), Step(s, last).replaying, Step(s, last).arrivals);
    }
  }

  lemma Regroup(held: seq<Held>, replayed: seq<Held>, replaying: seq<Held>, arrivals: seq<Held>, more: seq<Held>,
                now: seq<Held>, replaying': seq<Held>, arrivals': seq<Held>)
    requires held == replayed + replaying + arrivals
    requires replaying + arrivals + more == now + replaying' + arrivals'
    ensures held + more == (replayed + now) + replaying' + arrivals'
  {
    assert held + more == replayed + (replaying + arrivals + more);
    assert replayed + (now + replaying' + arrivals') == (replayed + now) + replaying' + arrivals';
  }

  /** A replay happens only after ONLINE was handled, under that connection's own profile. */
  lemma ReplaysAreBound(tables: Tables, actions: seq<Action>)
    requires Sound(tables) && Enabled(Run(Initial(tables), actions), Replay)
    ensures var s := Run(Initial(tables), actions);
      s.phase.Live? && s.recorder.bound == CanonicalKey(s.phase.info.nodeId, s.phase.info.shortName)
  {
    RunSteady(Initial(tables), actions);
  }

  // ----- What is written, and under which profile

  /** The packet a step files, if it files one. */
  function FiledBy(s: Link, a: Action): Option<Packet> {
    var wire := if a.Replay? && Enabled(s, a) then s.replaying[0].wire
                else if a.Arrive? && !Stale(s, a.from) then a.wire
                else Garbled;
    if wire.Garbled? || s.recorder.bound.None? then None else Some(Filed(s.recorder.channelKeys, wire.message))
  }

  lemma DeliverWrites(s: Link, wire: Wire)
    ensures Deliver(s, wire).recorder.tables.rows ==
            if wire.Garbled? || s.recorder.bound.None? then s.recorder.tables.rows
            else AddIncoming(s.recorder.tables, s.recorder.ns, Filed(s.recorder.channelKeys, wire.message)).0.rows
  {
  }

  lemma QuietStepWrites(s: Link, a: Action)
    requires !a.Arrive? && !a.Replay?
    ensures Step(s, a).recorder.tables.rows == s.recorder.tables.rows
  {
  }

  /** A step either files one packet, or leaves the rows as they are. */
  lemma StepWrites(s: Link, a: Action)
    ensures Step(s, a).recorder.tables.rows ==
            if FiledBy(s, a).Some? then AddIncoming(s.recorder.tables, s.recorder.ns, FiledBy(s, a).value).0.rows
            else s.recorder.tables.rows
  {
    if a.Arrive? {
      DeliverWrites(s, a.wire);
    } else if a.Replay? {
      if Enabled(s, a) {
        DeliverWrites(s.(replaying := s.replaying[1..]), s.replaying[0].wire);
      }
    } else {
      QuietStepWrites(s, a);
    }
  }

  /** No row is ever written under a profile other than the one bound at that moment, or under none. */
  lemma {:induction false} RowsBelongToBoundProfile(tables: Tables, actions: seq<Action>, a: Action)
    requires Sound(tables)
    ensures var s := Run(Initial(tables), actions); var rows := s.recorder.tables.rows;
      var after := Step(s, a).recorder.tables.rows;
      rows <= after && forall i :: |rows| <= i < |after| ==>
        s.recorder.bound.Some? && after[i].profileKey == s.recorder.bound
  {
    RunSteady(Initial(tables), actions);
    var s := Run(Initial(tables), actions);
    StepWrites(s, a);
  }

  lemma StepGrows(s: Link, a: Action)
    ensures s.recorder.tables.rows <= Step(s, a).recorder.tables.rows
  {
    StepWrites(s, a);
  }

  lemma RunAppend(s: Link, before: seq<Action>, a: Action)
    ensures Run(s, before + [a]) == Step(Run(s, before), a)
  {
    assert (before + [a])[..|before|] == before;
  }

  lemma {:induction false} RowsGrow(s: Link, actions: seq<Action>)
    ensures s.recorder.tables.rows <= Run(s, actions).recorder.tables.rows
  {
    if actions != [] {
      var front, last := actions[..|actions| - 1], actions[|actions| - 1];
      RowsGrow(s, front);
      StepGrows(Run(s, front), last);
    }
  }

  /** A run in two parts. */
  lemma {:induction false} RunConcat(s: Link, before: seq<Action>, after: seq<Action>)
    ensures Run(s, before + after) == Run(Run(s, before), after)
  {
    if after == [] {
      assert before + after == before;
    } else {
      var front, last := after[..|after| - 1], after[|after| - 1];
      RunConcat(s, before, front);
      SplitLast(before, after);
    }
  }

  lemma SplitLast(before: seq<Action>, after: seq<Action>)
    requires after != []
    ensures var all := before + after;
      all != [] && all[..|all| - 1] == before + after[..|after| - 1] && all[|all| - 1] == after[|after| - 1]
  {
  }

  lemma {:induction false} ReplayedConcat(s: Link, before: seq<Action>, after: seq<Action>)
    ensures ReplayedIn(s, before + after) == ReplayedIn(s, before) + ReplayedIn(Run(s, before), after)
  {
    if after == [] {
      assert before + after == before;
    } else {
      ReplayedConcat(s, before, after[..|after| - 1]);
      RunConcat(s, before, after[..|after| - 1]);
      SplitLast(before, after);
    }
  }
}
