/** The two objects: the recorder that files messages, and the service that feeds it. */
module RadioService {
  import opened Common
  import opened ChatPaging
  import opened ChatRows
  import opened ChatTable
  import Store = ChatStore
  import P = ProfileKeys
  import Radio
  import opened RadioTypes = Radio

  class MessageRecorder {
    const store: Store.ChatStore
    var channelKeys: map<int, string>
    var boundProfile: Option<string>

    ghost function State(): Recorder
      reads this, store
    {
      Recorder(channelKeys, boundProfile, store.ns, store.State())
    }

    constructor (store: Store.ChatStore)
      ensures this.store == store && State() == Recorder(map[], None, store.ns, store.State())
    {
      this.store, channelKeys, boundProfile := store, map[], None;
    }

    method Bind(info: Option<Info>, now: real)
      requires store.Valid()
      modifies this, store
      ensures store.Valid()
      ensures State() == if info.None? then old(State()) else Radio.Bind(old(State()), info.value, now)
    {
      if info.None? {
        return;
      }
      var keys: map<int, string> := map[];
      var channels := info.value.channels;
      for i := 0 to |channels|
        invariant keys == KeysOf(channels[..i])
      {
        assert channels[..i + 1][..i] == channels[..i];
        if channels[i].stableKey != "" {
          keys := keys[channels[i].index := channels[i].stableKey];
        }
      }
      assert channels[..|channels|] == channels;
      channelKeys := keys;
      var key := P.CanonicalKey(info.value.nodeId, info.value.shortName);
      if key.Some? {
        var ensured := store.EnsureProfile(info.value.nodeId, info.value.shortName, now);
      }
      store.SetActiveProfile(key);
      boundProfile := key;
    }

    method Unbind()
      requires store.Valid()
      modifies this, store
      ensures store.Valid() && State() == Radio.Unbind(old(State()))
    {
      boundProfile := None;
      store.SetActiveProfile(None);
    }

    method Record(m: Message)
      requires store.Valid()
      modifies store
      ensures store.Valid() && State() == Radio.Record(old(State()), m)
    {
      if boundProfile.Some? {
        var added := store.AddIncoming(Filed(channelKeys, m));
      }
    }
  }

  class RadioService {
    const recorder: MessageRecorder
    var phase: Phase
    var interface: Option<nat>
    var connectInProgress: bool
    var attempt: nat
    var connectArrivals: seq<Held>
    var replaying: seq<Held>
    var generation: nat
    var configSnapshot: Option<nat>

    ghost function State(): Link
      reads this, recorder, recorder.store
    {
      Link(phase, interface, connectInProgress, attempt, connectArrivals, replaying, generation, configSnapshot,
           recorder.State())
    }

    ghost predicate Valid()
      reads this, recorder, recorder.store
    {
      recorder.store.Valid()
    }

    constructor (recorder: MessageRecorder)
      requires recorder.store.Valid()
      ensures Valid() && this.recorder == recorder
      ensures State() == Link(Waiting, None, false, 0, [], [], 0, None, recorder.State())
    {
      this.recorder := recorder;
      phase, interface, connectInProgress, connectArrivals := Waiting, None, false, [];
      attempt, replaying, generation, configSnapshot := 0, [], 0, None;
    }

    /** One packet from the reader thread, or from the replay. */
    method OnTextReceived(wire: Wire, from: Option<nat>)
      requires Valid()
      modifies this`connectArrivals, recorder.store
      ensures Valid() && State() == Arrival(old(State()), wire, from)
    {
      if from.Some? && interface != from {
        if connectInProgress {
          if |connectArrivals| < MAX_CONNECT_ARRIVALS {
            connectArrivals := connectArrivals + [Held(wire, from.value, attempt)];
          }
        }
        return;
      }
      match wire
      case Garbled =>
      case Text(message) => recorder.Record(message);
    }

    method RebuildConfigSnapshot()
      modifies this`configSnapshot
      ensures configSnapshot == if interface.None? then None else Some(generation)
    {
      configSnapshot := if interface.None? then None else Some(generation);
    }

    method Close()
      modifies this`interface, this`configSnapshot
      ensures interface.None? && configSnapshot.None?
    {
      configSnapshot := None;
      interface := None;
    }

    /** The swap at the start of the drain: what was held becomes what is replayed. */
    method SwapArrivals()
      requires Valid() && phase.Handled?
      modifies this`phase, this`replaying, this`connectArrivals
      ensures Valid() && State() == Step(old(State()), Swap)
      ensures phase.Live? && replaying == old(connectArrivals) && connectArrivals == []
    {
      replaying, connectArrivals := connectArrivals, [];
      phase := Live(phase.info);
    }

    method ReplayNext()
      requires Valid() && phase.Live? && replaying != []
      modifies this`replaying, this`connectArrivals, recorder.store
      ensures Valid() && State() == Step(old(State()), Replay)
      ensures replaying == old(replaying)[1..] && connectArrivals == old(connectArrivals)
    {
      var wire := replaying[0].wire;
      replaying := replaying[1..];
      OnTextReceived(wire, interface);
    }

    /** The consumer's turn: ONLINE binds the profile of the radio found, ERROR and OFFLINE bind none. */
    method HandleOnline(now: real)
      requires Valid() && phase.Opened?
      modifies this`phase, recorder, recorder.store
      ensures Valid() && State() == Step(old(State()), Online(now))
    {
      recorder.Bind(Some(phase.info), now);
      phase := Handled(phase.info);
    }

    method HandleOffline()
      requires Valid() && phase.Down?
      modifies this`phase, recorder, recorder.store
      ensures Valid() && State() == Step(old(State()), Notice)
    {
      recorder.Unbind();
      phase := Waiting;
    }

    /** Runs one step of the connecting thread, or hands over one arrival. */
    method Take(a: Action)
      requires Valid()
      modifies this, recorder, recorder.store
      ensures Valid() && State() == Step(old(State()), a)
    {
      if !Permitted(phase, interface.Some?, replaying == [], a) {
        return;
      }
      match a
      case Begin => phase, connectInProgress, attempt := Opening, true, attempt + 1;
      case Assign(i) => phase, connectInProgress, interface := Assigned, false, Some(i);
      case Ready(info) =>
        generation := generation + 1;
        RebuildConfigSnapshot();
        phase := Opened(info);
      case Fail =>
        connectInProgress := false;
        Close();
        phase := Down;
      case Online(now) =>
        HandleOnline(now);
      case Swap =>
        SwapArrivals();
      case Replay =>
        ReplayNext();
      case Refresh => RebuildConfigSnapshot();
      case Lost =>
        Close();
        phase := Down;
      case Notice =>
        HandleOffline();
      case CloseOutside => Close();
      case Arrive(wire, from) => OnTextReceived(wire, from);
    }

    /** The swap, and one replay, as steps of the drain that started in `s`. */
    method StartDrain(ghost s: Link)
      requires Valid() && phase.Handled? && s == State()
      modifies this`phase, this`replaying, this`connectArrivals
      ensures Valid() && State() == Run(s, DrainOf(0))
      ensures phase.Live? && replaying == old(connectArrivals) && connectArrivals == []
    {
      RunAppend(s, [], Swap);
      SwapArrivals();
    }

    method DrainOne(ghost s: Link, ghost count: nat)
      requires Valid() && phase.Live? && replaying != [] && State() == Run(s, DrainOf(count))
      modifies this`replaying, this`connectArrivals, recorder.store
      ensures Valid() && State() == Run(s, DrainOf(count + 1))
      ensures |replaying| == |old(replaying)| - 1 && connectArrivals == old(connectArrivals)
    {
      RunAppend(s, DrainOf(count), Replay);
      ReplayNext();
    }

    /** The drain with nothing arriving meanwhile: the held packets, swapped out once, then replayed in order. */
    method DrainConnectArrivals()
      requires Valid() && phase.Handled?
      modifies this`phase, this`replaying, this`connectArrivals, recorder.store
      ensures Valid() && replaying == [] && connectArrivals == []
      ensures State() == Run(old(State()), DrainOf(|old(connectArrivals)|))
    {
      ghost var s0 := State();
      var count := |connectArrivals|;
      StartDrain(s0);
      for i := 0 to count
        invariant Valid() && phase.Live? && |replaying| == count - i && connectArrivals == []
        invariant State() == Run(s0, DrainOf(i))
      {
        DrainOne(s0, i);
      }
    }
  }

  function DrainOf(count: nat): seq<Action> {
    if count == 0 then [] + [Swap] else DrainOf(count - 1) + [Replay]
  }
}
