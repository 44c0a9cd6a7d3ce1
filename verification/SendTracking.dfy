/** Outgoing sends watched for routing responses. */
module SendTracking {
  import opened Common
  import opened ProfileKeys

  /** `token` stands for the status handler given with the send. */
  datatype Pending = Pending(packetId: int, token: nat, destination: Option<int>)

  /** `Clean` when no error reason is given; `Unknown` for a reason the protocol does not name. */
  datatype Reason = Clean | Failure(name: string) | Unknown

  datatype Response =
    | Unreadable
    | Unrelated(requestId: Option<int>)
    | Routing(requestId: Option<int>, reason: Reason, from: Option<int>)

  datatype DeliveryState = SENT | HEARD | FAILED

  datatype Event = Event(token: nat, state: DeliveryState)

  const MAX_PENDING: nat := 200

  /** The number a node ID spells, when it spells one. */
  function NodeNumber(id: Option<string>): Option<int> {
    if id.None? || Strip(id.value) == "" then None
    else
      var s := Strip(id.value);
      ParseHex(if s[0] == '!' then s[1..] else s)
  }

  function RequestId(r: Response): Option<int> {
    if r.Unreadable? then None else r.requestId
  }

  predicate Remote(r: Response, local: Option<int>) {
    r.Routing? && r.from.Some? && local.Some? && r.from != local
  }

  function Parse(r: Response, local: Option<int>, expected: Option<int>): Option<DeliveryState> {
    if !r.Routing? || r.reason.Unknown? then None
    else if r.reason.Failure? then Some(FAILED)
    else if !Remote(r, local) then Some(SENT)
    else if expected.Some? && r.from != expected then None
    else Some(HEARD)
  }

  // ----- The insertion-ordered dictionary

  function IndexOf(pending: seq<Pending>, id: int): (n: nat)
    ensures n <= |pending|
    ensures n < |pending| ==> pending[n].packetId == id
    ensures forall k :: 0 <= k < n ==> pending[k].packetId != id
  {
    if pending == [] || pending[0].packetId == id then 0 else 1 + IndexOf(pending[1..], id)
  }

  /** An ID already present keeps its place and takes the new value. */
  function Put(pending: seq<Pending>, p: Pending): seq<Pending> {
    var n := IndexOf(pending, p.packetId);
    if n < |pending| then pending[n := p] else pending + [p]
  }

  function Newest(pending: seq<Pending>): seq<Pending> {
    pending[Max(0, |pending| - MAX_PENDING)..]
  }

  function Without(pending: seq<Pending>, id: int): seq<Pending> {
    var n := IndexOf(pending, id);
    if n < |pending| then pending[..n] + pending[n + 1..] else pending
  }

  // ----- The machine

  datatype Tracker = Tracker(pending: seq<Pending>, nextToken: nat, interface: Option<nat>, local: Option<int>)

  datatype Deed =
    | SendText(packetId: Option<int>, watched: bool, destination: Option<string>)
    | Receive(from: Option<nat>, response: Response)
    | Connect(interface: nat, local: Option<int>)
    | Close

  /** The pending send a response is matched to. */
  function Matched(s: Tracker, from: Option<nat>, r: Response): Option<Pending> {
    if from.Some? && from != s.interface then None
    else if RequestId(r).None? then None
    else
      var n := IndexOf(s.pending, RequestId(r).value);
      if n < |s.pending| then Some(s.pending[n]) else None
  }

  function Reported(s: Tracker, d: Deed): Option<Event> {
    if !d.Receive? || Matched(s, d.from, d.response).None? then None
    else
      var p := Matched(s, d.from, d.response).value;
      var state := Parse(d.response, s.local, p.destination);
      if state.None? then None else Some(Event(p.token, state.value))
  }

  function Step(s: Tracker, d: Deed): Tracker {
    match d
    case SendText(id, watched, destination) =>
      if s.interface.None? then s
      else if !watched || id.None? then s.(nextToken := s.nextToken + 1)
      else s.(pending := Newest(Put(s.pending, Pending(id.value, s.nextToken, NodeNumber(destination)))),
              nextToken := s.nextToken + 1)
    case Receive(from, r) =>
      if Reported(s, d).Some? && !Reported(s, d).value.state.SENT?
      then s.(pending := Without(s.pending, RequestId(r).value)) else s
    case Connect(i, local) => s.(interface := Some(i), local := local)
    case Close => s.(interface := None, local := None)
  }

  function Run(s: Tracker, deeds: seq<Deed>): Tracker {
    if deeds == [] then s else Step(Run(s, deeds[..|deeds| - 1]), deeds[|deeds| - 1])
  }

  function Log(s: Tracker, deeds: seq<Deed>): seq<Event> {
    if deeds == [] then []
    else
      var front := deeds[..|deeds| - 1];
      var e := Reported(Run(s, front), deeds[|deeds| - 1]);
      if e.None? then Log(s, front) else Log(s, front) + [e.value]
  }

  const START: Tracker := Tracker([], 0, None, None)

  // ----- What every run keeps

  ghost predicate DistinctIds(pending: seq<Pending>) {
    forall i, j :: 0 <= i < j < |pending| ==> pending[i].packetId != pending[j].packetId
  }

  ghost predicate TokensBelow(pending: seq<Pending>, next: nat) {
    forall i :: 0 <= i < |pending| ==> pending[i].token < next
  }

  ghost predicate DistinctTokens(pending: seq<Pending>) {
    forall i, j :: 0 <= i < j < |pending| ==> pending[i].token != pending[j].token
  }

  ghost predicate Orderly(s: Tracker) {
    && |s.pending| <= MAX_PENDING
    && DistinctIds(s.pending)
    && DistinctTokens(s.pending)
    && TokensBelow(s.pending, s.nextToken)
  }

  lemma PutOrderly(pending: seq<Pending>, p: Pending, next: nat)
    requires DistinctIds(pending) && DistinctTokens(pending) && TokensBelow(pending, next) && p.token == next
    ensures DistinctIds(Put(pending, p)) && DistinctTokens(Put(pending, p)) && TokensBelow(Put(pending, p), next + 1)
  {
    var n := IndexOf(pending, p.packetId);
    if n < |pending| {
      forall i | 0 <= i < |pending| && i != n ensures pending[i].packetId != p.packetId {
        assert if i < n then pending[i].packetId != pending[n].packetId else pending[n].packetId != pending[i].packetId;
      }
    }
  }

  lemma WithoutOrderly(pending: seq<Pending>, id: int, next: nat)
    requires DistinctIds(pending) && DistinctTokens(pending) && TokensBelow(pending, next)
    ensures var after := Without(pending, id);
      DistinctIds(after) && DistinctTokens(after) && TokensBelow(after, next) && |after| <= |pending|
  {
    var n, after := IndexOf(pending, id), Without(pending, id);
    if n < |pending| {
      forall i | 0 <= i < |after| ensures after[i] == pending[if i < n then i else i + 1] {
      }
    }
  }

  lemma StepOrderly(s: Tracker, d: Deed)
    requires Orderly(s)
    ensures Orderly(Step(s, d))
  {
    match d
    case SendText(id, watched, destination) =>
      if s.interface.Some? && watched && id.Some? {
        PutOrderly(s.pending, Pending(id.value, s.nextToken, NodeNumber(destination)), s.nextToken);
      }
    case Receive(from, r) =>
      if RequestId(r).Some? {
        WithoutOrderly(s.pending, RequestId(r).value, s.nextToken);
      }
    case Connect(_, _) =>
    case Close =>
  }

  /** At most 200 sends are tracked, one per packet ID. */
  lemma {:induction false} RunOrderly(deeds: seq<Deed>)
    ensures Orderly(Run(START, deeds))
  {
    if deeds != [] {
      RunOrderly(deeds[..|deeds| - 1]);
      StepOrderly(Run(START, deeds[..|deeds| - 1]), deeds[|deeds| - 1]);
    }
  }

  ghost predicate Tracked(s: Tracker, token: nat) {
    exists i :: 0 <= i < |s.pending| && s.pending[i].token == token
  }

  /** A token out of the list never comes back. */
  lemma UntrackedStays(s: Tracker, d: Deed, token: nat)
    requires token < s.nextToken && !Tracked(s, token)
    ensures token < Step(s, d).nextToken && !Tracked(Step(s, d), token)
  {
  }

  lemma ReportedIsTracked(s: Tracker, d: Deed)
    requires Orderly(s) && Reported(s, d).Some?
    ensures Tracked(s, Reported(s, d).value.token) && Reported(s, d).value.token < s.nextToken
    ensures !Reported(s, d).value.state.SENT? ==> !Tracked(Step(s, d), Reported(s, d).value.token)
  {
    var n := IndexOf(s.pending, RequestId(d.response).value);
    assert s.pending[n].token == Reported(s, d).value.token;
  }

  /** What the log says about every send so far. */
  ghost predicate Settled(log: seq<Event>, s: Tracker) {
    (forall i, j :: 0 <= i < j < |log| && log[i].token == log[j].token ==> log[i].state.SENT?) &&
    (forall i :: 0 <= i < |log| ==> log[i].token < s.nextToken && (!log[i].state.SENT? ==> !Tracked(s, log[i].token)))
  }

  lemma StepSettled(log: seq<Event>, s: Tracker, d: Deed)
    requires Orderly(s) && Settled(log, s)
    ensures var e := Reported(s, d);
      Settled(if e.None? then log else log + [e.value], Step(s, d))
  {
    forall i | 0 <= i < |log| && !log[i].state.SENT? ensures !Tracked(Step(s, d), log[i].token) {
      UntrackedStays(s, d, log[i].token);
    }
    if Reported(s, d).Some? {
      ReportedIsTracked(s, d);
    }
  }

  lemma {:induction false} RunSettled(deeds: seq<Deed>)
    ensures Settled(Log(START, deeds), Run(START, deeds))
  {
    if deeds != [] {
      var front := deeds[..|deeds| - 1];
      RunSettled(front);
      RunOrderly(front);
      StepSettled(Log(START, front), Run(START, front), deeds[|deeds| - 1]);
    }
  }

  /** Over every run, a send reported HEARD or FAILED is never reported again. */
  lemma NothingAfterTheVerdict(deeds: seq<Deed>, i: nat, j: nat)
    requires i < j < |Log(START, deeds)|
    requires Log(START, deeds)[i].token == Log(START, deeds)[j].token
    ensures Log(START, deeds)[i].state == SENT
  {
    RunSettled(deeds);
  }

  /** A watched direct message is reported HEARD for exactly one kind of packet: a clean response to its own
      request, not on a stale interface, from a node that is its destination and not this radio. */
  lemma DirectHeardExactly(s: Tracker, from: Option<nat>, r: Response, n: nat)
    requires Orderly(s) && n < |s.pending| && s.pending[n].destination.Some?
    ensures Reported(s, Receive(from, r)) == Some(Event(s.pending[n].token, HEARD)) <==>
            (from.None? || from == s.interface) && r.Routing? && r.requestId == Some(s.pending[n].packetId) &&
            r.reason.Clean? && s.local.Some? && r.from == s.pending[n].destination && r.from != s.local
  {
    if RequestId(r).Some? {
      var k := IndexOf(s.pending, RequestId(r).value);
      assert k < |s.pending| && k != n ==> s.pending[k].token != s.pending[n].token;
      assert RequestId(r).value == s.pending[n].packetId ==> k == n;
    }
  }

  /** A tracked send is reported FAILED for exactly the named errors of its own request, and SENT for exactly the
      clean responses to it that do not come from another node. */
  lemma OtherVerdictsExactly(s: Tracker, from: Option<nat>, r: Response, n: nat)
    requires Orderly(s) && n < |s.pending|
    ensures var ours := (from.None? || from == s.interface) && r.Routing? && r.requestId == Some(s.pending[n].packetId);
      (Reported(s, Receive(from, r)) == Some(Event(s.pending[n].token, FAILED)) <==> ours && r.reason.Failure?) &&
      (Reported(s, Receive(from, r)) == Some(Event(s.pending[n].token, SENT)) <==>
         ours && r.reason.Clean? && (r.from.None? || s.local.None? || r.from == s.local))
  {
    if RequestId(r).Some? {
      var k := IndexOf(s.pending, RequestId(r).value);
      assert k < |s.pending| && k != n ==> s.pending[k].token != s.pending[n].token;
      assert RequestId(r).value == s.pending[n].packetId ==> k == n;
    }
  }

  /** A clean response from any other remote node says nothing about a direct message and leaves it tracked. */
  lemma OtherNodesChangeNothing(s: Tracker, from: Option<nat>, r: Response)
    requires Remote(r, s.local) && r.reason.Clean?
    requires var m := Matched(s, from, r); m.Some? ==> m.value.destination.Some? && m.value.destination != r.from
    ensures Reported(s, Receive(from, r)).None? && Step(s, Receive(from, r)) == s
  {
  }

  /** The oldest send gives way to the 201st; a re-used packet ID moves nobody. */
  lemma OverflowDropsTheOldest(pending: seq<Pending>, p: Pending)
    requires |pending| <= 200 && DistinctIds(pending)
    ensures var after := Newest(Put(pending, p));
      if IndexOf(pending, p.packetId) < |pending|
      then |after| == |pending| && after == pending[IndexOf(pending, p.packetId) := p]
      else if |pending| == 200 then after == pending[1..] + [p]
      else after == pending + [p]
  {
  }

  // ----- The object

  method DropOldest(put: seq<Pending>) returns (kept: seq<Pending>)
    ensures kept == Newest(put)
  {
    kept := put;
    while |kept| > MAX_PENDING
      invariant Min(MAX_PENDING, |put|) <= |kept| <= |put|
      invariant kept == put[|put| - |kept|..]
    {
      kept := kept[1..];
    }
  }

  class Watch {
    var pending: seq<Pending>
    var nextToken: nat
    var interface: Option<nat>
    var local: Option<int>

    ghost function State(): Tracker
      reads this
    {
      Tracker(pending, nextToken, interface, local)
    }

    constructor ()
      ensures State() == START
    {
      pending, nextToken, interface, local := [], 0, None, None;
    }

    method Find(id: int) returns (n: nat)
      ensures n == IndexOf(pending, id)
    {
      n := 0;
      while n < |pending| && pending[n].packetId != id
        invariant n <= |pending|
        invariant IndexOf(pending, id) == n + IndexOf(pending[n..], id)
      {
        n := n + 1;
      }
    }

    method Track(packetId: int, expected: Option<int>)
      modifies this`pending
      ensures pending == Newest(Put(old(pending), Pending(packetId, nextToken, expected)))
    {
      var p := Pending(packetId, nextToken, expected);
      var n := Find(packetId);
      pending := DropOldest(if n < |pending| then pending[n := p] else pending + [p]);
    }

    /** The tracking part of a send; `ok` is false when no radio is connected. */
    method SendText(packetId: Option<int>, watched: bool, destination: Option<string>) returns (ok: bool)
      modifies this`pending, this`nextToken
      ensures ok == old(interface).Some?
      ensures State() == Step(old(State()), Deed.SendText(packetId, watched, destination))
    {
      ok := interface.Some?;
      if ok {
        if watched && packetId.Some? {
          Track(packetId.value, NodeNumber(destination));
        }
        nextToken := nextToken + 1;
      }
    }

    method OnRoutingResponse(from: Option<nat>, r: Response) returns (report: Option<Event>)
      modifies this`pending
      ensures report == Reported(old(State()), Receive(from, r))
      ensures State() == Step(old(State()), Receive(from, r))
    {
      report := None;
      if from.Some? && from != interface {
        return;
      }
      if RequestId(r).None? {
        return;
      }
      var n := Find(RequestId(r).value);
      if n == |pending| {
        return;
      }
      var status := Parse(r, local, pending[n].destination);
      if status.None? {
        return;
      }
      report := Some(Event(pending[n].token, status.value));
      if status.value.HEARD? || status.value.FAILED? {
        pending := pending[..n] + pending[n + 1..];
      }
    }
  }
}
