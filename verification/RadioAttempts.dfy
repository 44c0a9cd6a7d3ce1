/** Which connection replays a held packet: the one its own attempt became, or a later one. */
module RadioAttempts {
  import opened Common
  import opened ChatPaging
  import opened ChatTable
  import opened ProfileKeys
  import opened Radio

  /** Everything held and not yet replayed, in arrival order. */
  function Queue(s: Link): seq<Held> {
    s.replaying + s.arrivals
  }

  /** A failed attempt somewhere in a run. */
  predicate FailsIn(s: Link, actions: seq<Action>) {
    actions != [] &&
    var front, last := actions[..|actions| - 1], actions[|actions| - 1];
    (FailsIn(s, front) || (last.Fail? && Enabled(Run(s, front), last)))
  }

  /** From any state on: what was waiting and what is held since is what is replayed and what still waits. */
  lemma {:induction false} QueueIsConserved(s: Link, actions: seq<Action>)
    requires Steady(s)
    ensures Queue(s) + HeldIn(s, actions) == ReplayedIn(s, actions) + Queue(Run(s, actions))
  {
    if actions != [] {
      var front, last := actions[..|actions| - 1], actions[|actions| - 1];
      QueueIsConserved(s, front);
      RunSteady(s, front);
      StepConserves(Run(s, front), last);
      Chain(Queue(s), HeldIn(s, front), ReplayedIn(s, front), Queue(Run(s, front)), HeldBy(Run(s, front), last),
            ReplayedBy(Run(s, front), last), Queue(Step(Run(s, front), last)), Run(s, front), last);
    }
  }

  lemma Chain(queue: seq<Held>, held: seq<Held>, replayed: seq<Held>, mid: seq<Held>, more: seq<Held>, now: seq<Held>,
              rest: seq<Held>, s: Link, a: Action)
    requires queue + held == replayed + mid && mid == Queue(s) && rest == Queue(Step(s, a))
    requires s.replaying + s.arrivals + more == now + Step(s, a).replaying + Step(s, a).arrivals
    ensures queue + (held + more) == (replayed + now) + rest
  {
    assert mid + more == now + rest;
    assert queue + (held + more) == (queue + held) + more == replayed + (mid + more);
  }

  /** Where the attempt stands, seen from attempt `n`. */
  predicate Since(s: Link, n: nat, failed: bool) {
    if failed then s.attempt > n || (s.attempt == n && (s.phase.Down? || s.phase.Waiting?))
    else s.attempt == n && !s.phase.Down? && !s.phase.Waiting?
  }

  lemma StepSince(s: Link, n: nat, failed: bool, a: Action)
    requires Steady(s) && Since(s, n, failed) && Queue(s) != []
    ensures Since(Step(s, a), n, failed || (a.Fail? && Enabled(s, a)))
  {
  }

  lemma ReplayedGrows(s: Link, actions: seq<Action>)
    requires actions != []
    ensures |ReplayedIn(s, actions[..|actions| - 1])| <= |ReplayedIn(s, actions)|
  {
  }

  /** While a packet held at the start waits for its replay, the attempt is the one at the start or one has failed. */
  lemma {:induction false} AttemptSince(s: Link, actions: seq<Action>)
    requires Steady(s) && s.phase.Opening? && |ReplayedIn(s, actions)| < |Queue(s)|
    ensures Since(Run(s, actions), s.attempt, FailsIn(s, actions))
  {
    if actions != [] {
      var front, last := actions[..|actions| - 1], actions[|actions| - 1];
      ReplayedGrows(s, actions);
      AttemptSince(s, front);
      RunSteady(s, front);
      QueueIsConserved(s, front);
      StillWaiting(Queue(s), HeldIn(s, front), ReplayedIn(s, front), Queue(Run(s, front)));
      StepSince(Run(s, front), s.attempt, FailsIn(s, front), last);
    }
  }

  lemma StillWaiting(queue: seq<Held>, held: seq<Held>, replayed: seq<Held>, rest: seq<Held>)
    requires queue + held == replayed + rest && |replayed| < |queue|
    ensures rest != [] && rest[0] == queue[|replayed|]
  {
    assert (queue + held)[|replayed|] == (replayed + rest)[|replayed|];
  }

  /** When the n-th waiting packet's turn comes, it is the one replayed. */
  lemma TurnOf(s: Link, actions: seq<Action>, n: nat)
    requires Steady(s) && n < |Queue(s)| && |ReplayedIn(s, actions)| == n && Enabled(Run(s, actions), Replay)
    ensures Run(s, actions).replaying[0] == Queue(s)[n]
  {
    QueueIsConserved(s, actions);
    StillWaiting(Queue(s), HeldIn(s, actions), ReplayedIn(s, actions), Queue(Run(s, actions)));
  }

  lemma HeldLast(s: Link, a: Action)
    requires Steady(s) && HeldBy(s, a) != []
    ensures s.phase.Opening? && Step(s, a).phase.Opening? && Step(s, a).attempt == s.attempt
    ensures Queue(Step(s, a)) == Queue(s) + [Held(a.wire, a.from.value, s.attempt)]
  {
  }

  /** The last packet in the queue, held while an attempt opens, and what has become of that attempt at its turn. */
  lemma FromHolding(s: Link, after: seq<Action>)
    requires Steady(s) && s.phase.Opening? && Queue(s) != []
    requires Enabled(Run(s, after), Replay) && |ReplayedIn(s, after)| == |Queue(s)| - 1
    ensures var t := Run(s, after);
      t.replaying[0] == Queue(s)[|Queue(s)| - 1] && (s.attempt == t.attempt <==> !FailsIn(s, after))
  {
    TurnOf(s, after, |Queue(s)| - 1);
    AttemptSince(s, after);
  }

  /** Over every run: when a held packet's turn to be replayed comes, the connection that replays it is the one its own
      attempt became if and only if no attempt has failed since it was held. */
  lemma OwnConnectionExactly(tables: Tables, before: seq<Action>, wire: Wire, from: nat, after: seq<Action>)
    requires Sound(tables) && HeldBy(Run(Initial(tables), before), Arrive(wire, Some(from))) != []
    requires var all := before + [Arrive(wire, Some(from))] + after;
      && Enabled(Run(Initial(tables), all), Replay)
      && |ReplayedIn(Initial(tables), all)| == |HeldIn(Initial(tables), before)|
    ensures var all := before + [Arrive(wire, Some(from))] + after; var t := Run(Initial(tables), all);
      t.replaying[0] == Held(wire, from, Run(Initial(tables), before).attempt) &&
      (t.replaying[0].attempt == t.attempt <==>
         !FailsIn(Run(Initial(tables), before + [Arrive(wire, Some(from))]), after))
  {
    var s0, a := Initial(tables), Arrive(wire, Some(from));
    var s := Run(s0, before);
    RunSteady(s0, before);
    RunAppend(s0, before, a);
    RunConcat(s0, before + [a], after);
    ReplayedConcat(s0, before + [a], after);
    ReplayedConcat(s0, before, [a]);
    assert [a][..0] == [];
    assert ReplayedIn(s, [a]) == [];
    QueueIsConserved(s0, before);
    HeldLast(s, a);
    StepSteady(s, a);
    FromHolding(Step(s, a), after);
  }

  // ----- A text from one radio, filed for another

  /** The first attempt hears the text and fails. */
  function FirstAttempt(m: Message): seq<Action> {
    [Begin, Arrive(Text(m), Some(1)), Fail, Notice]
  }

  /** The next one opens another interface, to a radio that says who it is. */
  function NextAttempt(info: Info, now: real): seq<Action> {
    [Begin, Assign(2), Ready(info), Online(now), Swap]
  }

  lemma Four(s: Link, a: Action, b: Action, c: Action, d: Action)
    ensures Run(s, [a, b, c, d]) == Step(Step(Step(Step(s, a), b), c), d)
  {
    RunAppend(s, [a, b, c], d);
    RunAppend(s, [a, b], c);
    RunAppend(s, [a], b);
    RunAppend(s, [], a);
    assert [] + [a] == [a] && [a] + [b] == [a, b] && [a, b] + [c] == [a, b, c] && [a, b, c] + [d] == [a, b, c, d];
  }

  lemma Five(s: Link, a: Action, b: Action, c: Action, d: Action, e: Action)
    ensures Run(s, [a, b, c, d, e]) == Step(Step(Step(Step(Step(s, a), b), c), d), e)
  {
    Four(s, a, b, c, d);
    RunAppend(s, [a, b, c, d], e);
    assert [a, b, c, d] + [e] == [a, b, c, d, e];
  }

  lemma AfterFirst(tables: Tables, m: Message)
    ensures var s := Run(Initial(tables), FirstAttempt(m));
      s.phase.Waiting? && s.attempt == 1 && s.arrivals == [Held(Text(m), 1, 1)] && s.replaying == []
  {
    Four(Initial(tables), Begin, Arrive(Text(m), Some(1)), Fail, Notice);
  }

  lemma AfterNext(s: Link, info: Info, now: real)
    requires s.phase.Waiting?
    ensures var t := Run(s, NextAttempt(info, now));
      t.phase == Live(info) && t.attempt == s.attempt + 1 && t.interface == Some(2) && t.replaying == s.arrivals &&
      t.recorder.bound == CanonicalKey(info.nodeId, info.shortName) && t.recorder.channelKeys == KeysOf(info.channels)
  {
    Five(s, Begin, Assign(2), Ready(info), Online(now), Swap);
  }

  /** A text that the interface of a failed attempt delivered is filed under the key of whichever radio the next
      successful attempt finds, with that radio's channel keys. */
  lemma HeldTextChangesRadio(tables: Tables, m: Message, info: Info, now: real)
    requires CanonicalKey(info.nodeId, info.shortName).Some?
    ensures var s := Run(Initial(tables), FirstAttempt(m) + NextAttempt(info, now));
      Enabled(s, Replay) && s.replaying == [Held(Text(m), 1, 1)] && s.attempt == 2 && s.interface == Some(2) &&
      s.recorder.bound == CanonicalKey(info.nodeId, info.shortName) &&
      FiledBy(s, Replay) == Some(Filed(KeysOf(info.channels), m))
  {
    RunConcat(Initial(tables), FirstAttempt(m), NextAttempt(info, now));
    AfterFirst(tables, m);
    AfterNext(Run(Initial(tables), FirstAttempt(m)), info, now);
  }
}
