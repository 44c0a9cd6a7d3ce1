/** Building the working set, and what it guarantees. */
module WorkingSetProperties {
  import opened Common
  import opened Sorting
  import opened WorkingSet
  import E = Encounters

  // ----- Survivors have their own IDs

  ghost predicate OwnIds(known: map<string, Node>) {
    forall id :: id in known ==> known[id].id == id && !known[id].isLocal
  }

  lemma {:induction false} KnownOwnIds(nodes: seq<Node>)
    ensures OwnIds(Known(nodes))
  {
    if nodes != [] {
      KnownOwnIds(nodes[..|nodes| - 1]);
    }
  }

  lemma {:induction false} DemotedOwnIds(known: map<string, Node>, locals: seq<Node>)
    requires OwnIds(known)
    ensures OwnIds(Demoted(known, locals))
  {
    if locals != [] {
      DemotedOwnIds(known, locals[..|locals| - 1]);
    }
  }

  lemma RemotesOwnIds(nodes: seq<Node>)
    ensures OwnIds(Remotes(nodes))
  {
    KnownOwnIds(nodes);
    if You(nodes).None? {
      DemotedOwnIds(Known(nodes), Locals(nodes));
    }
  }

  /** A survivor is the state of its own ID, is not YOU, and is not too old. */
  lemma SurvivorIs(i: Inputs, s: State)
    requires s in Survivors(i)
    ensures s == StateOf(i, s.node.id) && s.node.id in CandidateIds(i)
    ensures !s.node.isLocal && s.node.id !in YouId(i) && ActivityTier(s, i.now) != VERY_OLD
    ensures s.isRelay <==> s.node.id in RelayIds(i)
  {
    RemotesOwnIds(i.nodes);
  }

  /** There is one ranking. */
  lemma RankingIsUnique(i: Inputs, v: seq<State>, w: seq<State>)
    requires IsRanking(i, v) && IsRanking(i, w)
    ensures v == w
  {
    var favorites := NormalIds(i.favorites);
    var le := RankOrder(i.now, favorites);
    RankOrderIsTotal(i.now, favorites);
    forall a, b | a in v && b in v && le(a, b) && le(b, a) ensures a == b {
      RanksTotal(i.now, favorites, a, b);
      SurvivorIs(i, a);
      SurvivorIs(i, b);
    }
    SameMembers(v, w);
    SortedUnique(v, w, le);
  }

  lemma SameMembers<T>(v: seq<T>, w: seq<T>)
    requires NoDup(v) && NoDup(w) && forall x :: x in v <==> x in w
    ensures multiset(v) == multiset(w)
  {
    NoDupMultiset(v);
    NoDupMultiset(w);
    forall x ensures multiset(v)[x] == multiset(w)[x] {
      if x in v {
        assert multiset(v)[x] == 1 && multiset(w)[x] == 1;
      } else {
        assert x !in multiset(v) && x !in multiset(w);
      }
    }
  }

  // ----- The loops

  method Normalize(ids: seq<string>) returns (normal: set<string>)
    ensures normal == NormalIds(ids)
  {
    normal := {};
    for k := 0 to |ids|
      invariant normal == NormalIds(ids[..k])
    {
      assert ids[..k + 1] == ids[..k] + [ids[k]];
      normal := normal + {NormalId(ids[k])};
    }
    assert ids[..|ids|] == ids;
  }

  method ReadNodes(nodes: seq<Node>) returns (you: Option<Node>, remotes: map<string, Node>)
    ensures you == You(nodes) && remotes == Remotes(nodes)
  {
    var locals: seq<Node> := [];
    var known: map<string, Node> := map[];
    for k := 0 to |nodes|
      invariant locals == Locals(nodes[..k]) && known == Known(nodes[..k])
    {
      assert nodes[..k + 1][..k] == nodes[..k];
      var node := nodes[k];
      if NormalId(node.id) != "" {
        if node.isLocal {
          locals := locals + [Normalized(node)];
        } else {
          known := SetDefault(known, Normalized(node));
        }
      }
    }
    assert nodes[..|nodes|] == nodes;
    if |locals| == 1 {
      return Some(locals[0]), known - {locals[0].id};
    }
    remotes := known;
    for k := 0 to |locals|
      invariant remotes == Demoted(known, locals[..k])
    {
      assert locals[..k + 1][..k] == locals[..k];
      remotes := SetDefault(remotes, locals[k].(isLocal := false));
    }
    assert locals[..|locals|] == locals;
    you := None;
  }

  method ReadMessages(messages: seq<Interaction>) returns (latest: map<string, real>)
    ensures latest == Latest(messages)
  {
    latest := map[];
    for k := 0 to |messages|
      invariant latest == Latest(messages[..k])
    {
      assert messages[..k + 1][..k] == messages[..k];
      var id := NormalId(messages[k].id);
      if id != "" {
        if id !in latest || messages[k].at > latest[id] {
          latest := latest[id := messages[k].at];
        }
      }
    }
    assert messages[..|messages|] == messages;
  }

  /** The survivors outside `left`, each once. */
  ghost predicate Collected(survivors: set<State>, states: seq<State>, left: set<string>) {
    NoDup(states) && forall s :: s in states <==> s in survivors && s.node.id !in left
  }

  lemma CollectOne(i: Inputs, survivors: set<State>, states: seq<State>, left: set<string>, id: string)
    requires survivors == Survivors(i) && Collected(survivors, states, left) && id in left && id in CandidateIds(i)
    ensures var s := StateOf(i, id);
      Collected(survivors, if ActivityTier(s, i.now) != VERY_OLD then states + [s] else states, left - {id})
  {
    RemotesOwnIds(i.nodes);
    var s := StateOf(i, id);
    forall x | x in survivors && x.node.id == id ensures x == s {
      SurvivorIs(i, x);
    }
    assert s.node.id == id;
    assert ActivityTier(s, i.now) != VERY_OLD ==> s in survivors;
  }

  lemma NoneCollected(i: Inputs)
    ensures Collected(Survivors(i), [], CandidateIds(i))
  {
    forall s | s in Survivors(i) ensures s.node.id in CandidateIds(i) {
      SurvivorIs(i, s);
    }
  }

  method CandidateState(i: Inputs, remotes: map<string, Node>, latest: map<string, real>, relays: set<string>,
                        id: string)
    returns (s: State)
    requires remotes == Remotes(i.nodes) && latest == Latest(i.messages) && relays == RelayIds(i)
    ensures s == StateOf(i, id)
  {
    var node := if id in remotes then remotes[id] else Node(id, false, None, 0);
    var at := if id in latest then Some(latest[id]) else None;
    s := State(node, at.Some?, id in relays, at);
  }

  /** The candidate set is walked in any order; ranking forgets it. */
  method Candidates(i: Inputs, ids: set<string>, remotes: map<string, Node>, latest: map<string, real>,
                    relays: set<string>)
    returns (states: seq<State>)
    requires ids == CandidateIds(i) && remotes == Remotes(i.nodes)
    requires latest == Latest(i.messages) && relays == RelayIds(i)
    ensures Collected(Survivors(i), states, {})
  {
    ghost var survivors := Survivors(i);
    var left := ids;
    states := [];
    NoneCollected(i);
    while left != {}
      invariant left <= ids && Collected(survivors, states, left)
      decreases |left|
    {
      var id :| id in left;
      var s := CandidateState(i, remotes, latest, relays, id);
      CollectOne(i, survivors, states, left, id);
      if ActivityTier(s, i.now) != VERY_OLD {
        states := states + [s];
      }
      left := left - {id};
    }
  }

  lemma SortRanks(i: Inputs, states: seq<State>)
    requires Collected(Survivors(i), states, {})
    ensures IsRanking(i, Sort(states, RankOrder(i.now, NormalIds(i.favorites))))
  {
    var le := RankOrder(i.now, NormalIds(i.favorites));
    RankOrderIsTotal(i.now, NormalIds(i.favorites));
    SortPermutes(states, le);
    SortSorted(states, le);
    SortNoDup(states, le);
  }

  lemma DistinctInRanking(i: Inputs, ranking: seq<State>, a: nat, b: nat)
    requires IsRanking(i, ranking) && a < |ranking| && b < |ranking| && a != b
    ensures ranking[a].node.id != ranking[b].node.id
  {
    SurvivorIs(i, ranking[a]);
    SurvivorIs(i, ranking[b]);
    assert ranking[a] != ranking[b];
  }

  method BuildMeshWorkingSet(i: Inputs) returns (shown: seq<State>)
    ensures IsWorkingSet(i, shown)
  {
    var favorites := Normalize(i.favorites);
    var you, remotes := ReadNodes(i.nodes);
    var latest := ReadMessages(i.messages);
    var relays := Normalize(i.relays);
    var yours := if you.Some? then {you.value.id} else {};
    relays := relays - {""} - yours;
    var ids := (remotes.Keys + latest.Keys - yours) + relays;
    var candidates := Candidates(i, ids, remotes, latest, relays);
    var ranking := Sort(candidates, RankOrder(i.now, favorites));
    SortRanks(i, candidates);
    var forced := ForcedRelays(i, ranking, relays);
    var k := Cap(i, |ranking|);
    shown := (if you.Some? then [YouState(you.value)] else []) + ranking[..k] + forced;
    assert shown == Assemble(i, ranking);
  }

  /** The relays among the ranked that the cap leaves out, found by ID as the board is extended. */
  method ForcedRelays(i: Inputs, ranking: seq<State>, relays: set<string>) returns (forced: seq<State>)
    requires IsRanking(i, ranking)
    ensures forced == KeepRelays(ranking[Cap(i, |ranking|)..], relays)
  {
    var k := Cap(i, |ranking|);
    var boundedIds := Ids(ranking[..k]);
    forced := [];
    for n := 0 to |ranking|
      invariant forced == KeepRelays(ranking[k..Max(k, n)], relays)
      invariant Ids(ranking[..k]) <= boundedIds <= Ids(ranking[..Max(k, n)])
    {
      var s := ranking[n];
      IdsGrow(i, ranking, n);
      if n < k {
        AmongIds(ranking, n, k);
      } else {
        KeepOneMore(ranking, k, n, relays);
      }
      if s.node.id in relays && s.node.id !in boundedIds {
        forced := forced + [s];
        boundedIds := boundedIds + {s.node.id};
      }
    }
    assert ranking[k..|ranking|] == ranking[k..];
  }

  function Ids(states: seq<State>): set<string> {
    set s | s in states :: s.node.id
  }

  lemma IdsGrow(i: Inputs, ranking: seq<State>, n: nat)
    requires IsRanking(i, ranking) && n < |ranking|
    ensures Ids(ranking[..n + 1]) == Ids(ranking[..n]) + {ranking[n].node.id}
    ensures ranking[n].node.id !in Ids(ranking[..n])
  {
    assert ranking[..n + 1] == ranking[..n] + [ranking[n]];
    forall s | s in ranking[..n] ensures s.node.id != ranking[n].node.id {
      var m :| 0 <= m < n && ranking[m] == s;
      DistinctInRanking(i, ranking, m, n);
    }
  }

  lemma AmongIds(ranking: seq<State>, n: nat, k: nat)
    requires n < k <= |ranking|
    ensures ranking[n].node.id in Ids(ranking[..k])
  {
    assert ranking[..k][n] == ranking[n];
  }

  lemma KeepOneMore(ranking: seq<State>, k: nat, n: nat, relays: set<string>)
    requires k <= n < |ranking|
    ensures KeepRelays(ranking[k..n + 1], relays) ==
            KeepRelays(ranking[k..n], relays) + (if ranking[n].node.id in relays then [ranking[n]] else [])
  {
    assert ranking[k..n + 1][..n - k] == ranking[k..n];
  }

  // ----- What the board guarantees

  lemma {:induction false} KeptRelaysAre(states: seq<State>, relays: set<string>)
    ensures forall s :: s in KeepRelays(states, relays) <==> s in states && s.node.id in relays
  {
    if states != [] {
      KeptRelaysAre(states[..|states| - 1], relays);
      assert states == states[..|states| - 1] + [states[|states| - 1]];
    }
  }

  /** A survivor is on the board exactly when the cap admits its rank or it is a relay; nothing else but YOU is. */
  lemma ShownExactly(i: Inputs, ranking: seq<State>, s: State)
    requires IsRanking(i, ranking)
    ensures s in Assemble(i, ranking) <==>
            (You(i.nodes).Some? && s == YouState(You(i.nodes).value)) ||
            s in ranking[..Cap(i, |ranking|)] ||
            (s in Survivors(i) && s.node.id in RelayIds(i))
  {
    var k := Cap(i, |ranking|);
    KeptRelaysAre(ranking[k..], RelayIds(i));
    assert ranking == ranking[..k] + ranking[k..];
  }

  lemma InEither(ranking: seq<State>, k: nat, s: State)
    requires k <= |ranking| && s in ranking
    ensures s in ranking[..k] || s in ranking[k..]
  {
    assert ranking == ranking[..k] + ranking[k..];
  }

  lemma RankedBefore(i: Inputs, ranking: seq<State>, k: nat, kept: State, out: State)
    requires IsRanking(i, ranking) && k <= |ranking| && kept in ranking[..k] && out in ranking[k..]
    ensures RanksFirst(i.now, NormalIds(i.favorites), kept, out)
  {
    var m :| 0 <= m < k && ranking[m] == kept;
    var o :| 0 <= o < |ranking[k..]| && ranking[k..][o] == out;
    assert RankOrder(i.now, NormalIds(i.favorites))(ranking[m], ranking[k + o]);
  }

  /** Who is left out is no relay, and only because a full cap of remotes all rank before it. */
  lemma LeftOutRanksBelow(i: Inputs, ranking: seq<State>, out: State, kept: State)
    requires IsRanking(i, ranking) && out in Survivors(i) && out !in Assemble(i, ranking)
    ensures out.node.id !in RelayIds(i) && Cap(i, |ranking|) == Max(0, i.cap)
    ensures kept in ranking[..Cap(i, |ranking|)] ==> RanksFirst(i.now, NormalIds(i.favorites), kept, out)
  {
    var k := Cap(i, |ranking|);
    ShownExactly(i, ranking, out);
    InEither(ranking, k, out);
    if kept in ranking[..k] {
      RankedBefore(i, ranking, k, kept, out);
    }
  }

  ghost predicate DistinctNodeIds(states: seq<State>) {
    forall a, b :: 0 <= a < b < |states| ==> states[a].node.id != states[b].node.id
  }

  lemma {:induction false} KeptRelaysDistinct(states: seq<State>, relays: set<string>)
    requires DistinctNodeIds(states)
    ensures DistinctNodeIds(KeepRelays(states, relays))
  {
    if states != [] {
      var front := states[..|states| - 1];
      KeptRelaysDistinct(front, relays);
      KeptRelaysAre(front, relays);
    }
  }

  lemma RankingDistinct(i: Inputs, ranking: seq<State>)
    requires IsRanking(i, ranking)
    ensures DistinctNodeIds(ranking)
  {
    forall a, b | 0 <= a < b < |ranking| ensures ranking[a].node.id != ranking[b].node.id {
      DistinctInRanking(i, ranking, a, b);
    }
  }

  lemma PartsDistinct(you: seq<State>, bounded: seq<State>, forced: seq<State>)
    requires |you| <= 1 && DistinctNodeIds(bounded) && DistinctNodeIds(forced)
    requires forall a, b :: a in bounded && b in forced ==> a.node.id != b.node.id
    requires forall y, s :: y in you && s in bounded + forced ==> y.node.id != s.node.id
    ensures DistinctNodeIds(you + bounded + forced)
  {
    var all := you + bounded + forced;
    forall a, b | 0 <= a < b < |all| ensures all[a].node.id != all[b].node.id {
      assert all[b] in bounded + forced;
      if a < |you| {
        assert all[a] in you;
      } else if a < |you| + |bounded| {
        assert all[a] in bounded;
      }
    }
  }

  /** No ID appears twice, YOU's included. */
  lemma IdsAreUnique(i: Inputs, ranking: seq<State>)
    requires IsRanking(i, ranking)
    ensures DistinctNodeIds(Assemble(i, ranking))
  {
    var k := Cap(i, |ranking|);
    var you := if You(i.nodes).Some? then [YouState(You(i.nodes).value)] else [];
    var bounded, rest := ranking[..k], ranking[k..];
    RankingDistinct(i, ranking);
    KeptRelaysAre(rest, RelayIds(i));
    KeptRelaysDistinct(rest, RelayIds(i));
    forall a, b | a in bounded && b in rest ensures a.node.id != b.node.id {
      var m :| 0 <= m < |bounded| && bounded[m] == a;
      var n :| 0 <= n < |rest| && rest[n] == b;
      DistinctInRanking(i, ranking, m, k + n);
    }
    forall s | s in bounded + KeepRelays(rest, RelayIds(i)) ensures s.node.id !in YouId(i) {
      assert s in ranking;
      SurvivorIs(i, s);
    }
    PartsDistinct(you, bounded, KeepRelays(rest, RelayIds(i)));
  }

  lemma {:induction false} LocalsAreLocal(nodes: seq<Node>)
    ensures forall n :: n in Locals(nodes) ==> n.isLocal && n.id != ""
  {
    if nodes != [] {
      LocalsAreLocal(nodes[..|nodes| - 1]);
    }
  }

  /** The board has a local node exactly when one node claims to be local; it then leads, alone. Nobody on it
      is too old, relays included. */
  lemma OneYouOrNone(i: Inputs, ranking: seq<State>, n: nat)
    requires IsRanking(i, ranking) && n < |Assemble(i, ranking)|
    ensures Assemble(i, ranking)[n].node.isLocal <==> |Locals(i.nodes)| == 1 && n == 0
    ensures ActivityTier(Assemble(i, ranking)[n], i.now) != VERY_OLD
  {
    var s := Assemble(i, ranking)[n];
    LocalsAreLocal(i.nodes);
    if You(i.nodes).Some? && n == 0 {
      assert s.node == Locals(i.nodes)[0];
    } else {
      var k := Cap(i, |ranking|);
      KeptRelaysAre(ranking[k..], RelayIds(i));
      assert s in ranking[..k] + KeepRelays(ranking[k..], RelayIds(i));
      assert s in ranking;
      SurvivorIs(i, s);
    }
  }

  // ----- The order of the input does not matter

  ghost predicate DistinctSources(nodes: seq<Node>) {
    forall a, b :: 0 <= a < b < |nodes| && NormalId(nodes[a].id) == NormalId(nodes[b].id) ==>
      NormalId(nodes[a].id) == ""
  }

  ghost predicate HoldsExactly(known: map<string, Node>, sources: set<Node>) {
    (forall n :: n in sources ==> n.id in known && known[n.id] == n) &&
    (forall id :: id in known ==> known[id] in sources && known[id].id == id)
  }

  lemma HeldIsUnique(a: map<string, Node>, b: map<string, Node>, sources: set<Node>)
    requires HoldsExactly(a, sources) && HoldsExactly(b, sources)
    ensures a == b
  {
  }

  function OthersOf(nodes: seq<Node>): set<Node> {
    set n | n in nodes && NormalId(n.id) != "" && !n.isLocal :: Normalized(n)
  }

  function LocalsOf(nodes: seq<Node>): set<Node> {
    set n | n in nodes && NormalId(n.id) != "" && n.isLocal :: Normalized(n)
  }

  lemma FrontDistinct(nodes: seq<Node>)
    requires nodes != [] && DistinctSources(nodes)
    ensures var front, last := nodes[..|nodes| - 1], nodes[|nodes| - 1];
      DistinctSources(front) && nodes == front + [last] &&
      forall n :: n in front && NormalId(n.id) == NormalId(last.id) ==> NormalId(last.id) == ""
  {
    var front, last := nodes[..|nodes| - 1], nodes[|nodes| - 1];
    forall n | n in front && NormalId(n.id) == NormalId(last.id) ensures NormalId(last.id) == "" {
      var a :| 0 <= a < |front| && front[a] == n;
      assert nodes[a] == n;
    }
  }

  lemma {:induction false} KnownHolds(nodes: seq<Node>)
    requires DistinctSources(nodes)
    ensures HoldsExactly(Known(nodes), OthersOf(nodes))
  {
    if nodes != [] {
      var front, last := nodes[..|nodes| - 1], nodes[|nodes| - 1];
      FrontDistinct(nodes);
      KnownHolds(front);
      if NormalId(last.id) != "" && !last.isLocal {
        assert OthersOf(nodes) == OthersOf(front) + {Normalized(last)};
        assert NormalId(last.id) !in Known(front);
      } else {
        assert OthersOf(nodes) == OthersOf(front);
      }
    }
  }

  lemma {:induction false} LocalsHold(nodes: seq<Node>)
    requires DistinctSources(nodes)
    ensures (forall n :: n in Locals(nodes) <==> n in LocalsOf(nodes)) && |Locals(nodes)| == |LocalsOf(nodes)|
    ensures forall a, b :: 0 <= a < b < |Locals(nodes)| ==> Locals(nodes)[a].id != Locals(nodes)[b].id
  {
    if nodes != [] {
      var front, last := nodes[..|nodes| - 1], nodes[|nodes| - 1];
      FrontDistinct(nodes);
      LocalsHold(front);
      LocalsOneMore(front, last);
      assert NormalId(last.id) != "" ==> forall n :: n in LocalsOf(front) ==> n.id != NormalId(last.id);
    }
  }

  lemma LocalsOneMore(front: seq<Node>, last: Node)
    ensures LocalsOf(front + [last]) ==
            LocalsOf(front) + (if NormalId(last.id) != "" && last.isLocal then {Normalized(last)} else {})
  {
  }

  function AsRemotes(locals: seq<Node>): set<Node> {
    set n | n in locals :: n.(isLocal := false)
  }

  lemma HoldsOneMore(known: map<string, Node>, sources: set<Node>, n: Node)
    requires HoldsExactly(known, sources) && n.id !in known
    ensures HoldsExactly(SetDefault(known, n), sources + {n})
  {
  }

  lemma {:induction false} DemotedHolds(known: map<string, Node>, sources: set<Node>, locals: seq<Node>)
    requires HoldsExactly(known, sources)
    requires forall a, b :: 0 <= a < b < |locals| ==> locals[a].id != locals[b].id
    requires forall n :: n in locals ==> n.id !in known
    ensures HoldsExactly(Demoted(known, locals), sources + AsRemotes(locals))
    ensures forall id :: id in Demoted(known, locals) ==> id in known || exists n :: n in locals && n.id == id
  {
    if locals == [] {
      assert sources + AsRemotes(locals) == sources;
    } else {
      var front, last := locals[..|locals| - 1], locals[|locals| - 1];
      assert locals == front + [last];
      DemotedHolds(known, sources, front);
      assert last.id !in Demoted(known, front);
      HoldsOneMore(Demoted(known, front), sources + AsRemotes(front), last.(isLocal := false));
      assert sources + AsRemotes(locals) == sources + AsRemotes(front) + {last.(isLocal := false)};
    }
  }

  /** The same nodes in another order: the same YOU and the same remotes. */
  lemma NodesForgetOrder(a: seq<Node>, b: seq<Node>)
    requires DistinctSources(a) && DistinctSources(b) && forall n :: n in a <==> n in b
    ensures You(a) == You(b) && Remotes(a) == Remotes(b)
  {
    assert OthersOf(a) == OthersOf(b) && LocalsOf(a) == LocalsOf(b);
    KnownHolds(a);
    KnownHolds(b);
    HeldIsUnique(Known(a), Known(b), OthersOf(a));
    LocalsHold(a);
    LocalsHold(b);
    if |Locals(a)| == 1 {
      assert Locals(a)[0] in LocalsOf(b);
    } else {
      LocalsNotKnown(a);
      LocalsNotKnown(b);
      assert AsRemotes(Locals(a)) == AsRemotes(Locals(b));
      DemotedAgree(Known(a), OthersOf(a), Locals(a), Locals(b));
    }
  }

  lemma DemotedAgree(known: map<string, Node>, sources: set<Node>, a: seq<Node>, b: seq<Node>)
    requires HoldsExactly(known, sources) && AsRemotes(a) == AsRemotes(b)
    requires forall x, y :: 0 <= x < y < |a| ==> a[x].id != a[y].id
    requires forall x, y :: 0 <= x < y < |b| ==> b[x].id != b[y].id
    requires forall n :: n in a + b ==> n.id !in known
    ensures Demoted(known, a) == Demoted(known, b)
  {
    assert forall n :: n in a ==> n in a + b;
    assert forall n :: n in b ==> n in a + b;
    DemotedHolds(known, sources, a);
    DemotedHolds(known, sources, b);
    HeldIsUnique(Demoted(known, a), Demoted(known, b), sources + AsRemotes(a));
  }

  lemma LocalsNotKnown(nodes: seq<Node>)
    requires DistinctSources(nodes)
    ensures forall n :: n in Locals(nodes) ==> n.id !in Known(nodes)
  {
    KnownHolds(nodes);
    LocalsHold(nodes);
    forall n | n in Locals(nodes) ensures n.id !in Known(nodes) {
      if n.id in Known(nodes) {
        SourcesApart(nodes, n, Known(nodes)[n.id]);
      }
    }
  }

  lemma SourcesApart(nodes: seq<Node>, n: Node, m: Node)
    requires DistinctSources(nodes) && n in LocalsOf(nodes) && m in OthersOf(nodes)
    ensures n.id != m.id
  {
    var x :| x in nodes && NormalId(x.id) != "" && x.isLocal && Normalized(x) == n;
    var y :| y in nodes && NormalId(y.id) != "" && !y.isLocal && Normalized(y) == m;
    var a :| 0 <= a < |nodes| && nodes[a] == x;
    var b :| 0 <= b < |nodes| && nodes[b] == y;
    assert a != b;
  }

  function TimesOf(messages: seq<Interaction>, id: string): set<real> {
    set m | m in messages && NormalId(m.id) == id :: m.at
  }

  lemma {:induction false} NoBlankTimes(messages: seq<Interaction>)
    ensures "" !in Latest(messages)
  {
    if messages != [] {
      NoBlankTimes(messages[..|messages| - 1]);
    }
  }

  function TimeOf(latest: map<string, real>, id: string): Option<real> {
    if id in latest then Some(latest[id]) else None
  }

  lemma LatestStep(messages: seq<Interaction>, id: string)
    requires messages != [] && id != ""
    ensures var last, x := messages[|messages| - 1], TimeOf(Latest(messages[..|messages| - 1]), id);
      TimeOf(Latest(messages), id) ==
      if NormalId(last.id) == id && (x.None? || last.at > x.value) then Some(last.at) else x
  {
  }

  /** One node's interaction time is its latest, over all the spellings of its ID. */
  lemma {:induction false} LatestIsMax(messages: seq<Interaction>, id: string)
    requires id != ""
    ensures E.IsGreatest(TimeOf(Latest(messages), id), TimesOf(messages, id))
  {
    if messages == [] {
      assert TimesOf(messages, id) == {};
    } else {
      var front, last := messages[..|messages| - 1], messages[|messages| - 1];
      LatestIsMax(front, id);
      LatestStep(messages, id);
      TimesGrow(messages, id);
      MaxGrows(TimeOf(Latest(front), id), TimesOf(front, id), last.at);
    }
  }

  lemma TimesGrow(messages: seq<Interaction>, id: string)
    requires messages != []
    ensures var last := messages[|messages| - 1];
      TimesOf(messages, id)
        == TimesOf(messages[..|messages| - 1], id) + (if NormalId(last.id) == id then {last.at} else {})
  {
    assert messages == messages[..|messages| - 1] + [messages[|messages| - 1]];
  }

  lemma MaxGrows(x: Option<real>, times: set<real>, at: real)
    requires E.IsGreatest(x, times)
    ensures E.IsGreatest(if x.None? || at > x.value then Some(at) else x, times + {at})
  {
  }

  lemma MessagesForgetOrder(a: seq<Interaction>, b: seq<Interaction>)
    requires forall m :: m in a <==> m in b
    ensures Latest(a) == Latest(b)
  {
    NoBlankTimes(a);
    NoBlankTimes(b);
    forall id | id != "" ensures TimeOf(Latest(a), id) == TimeOf(Latest(b), id) {
      LatestIsMax(a, id);
      LatestIsMax(b, id);
      SameTimesOf(a, b, id);
      GreatestIsUnique(TimeOf(Latest(a), id), TimeOf(Latest(b), id), TimesOf(a, id));
    }
    SameTimes(Latest(a), Latest(b));
  }

  lemma SameTimesOf(a: seq<Interaction>, b: seq<Interaction>, id: string)
    requires forall m :: m in a <==> m in b
    ensures TimesOf(a, id) == TimesOf(b, id)
  {
  }

  lemma GreatestIsUnique(x: Option<real>, y: Option<real>, times: set<real>)
    requires E.IsGreatest(x, times) && E.IsGreatest(y, times)
    ensures x == y
  {
  }

  lemma SameTimes(a: map<string, real>, b: map<string, real>)
    requires "" !in a && "" !in b && forall id :: id != "" ==> TimeOf(a, id) == TimeOf(b, id)
    ensures a == b
  {
    forall id ensures id in a <==> id in b {
      assert id != "" ==> TimeOf(a, id) == TimeOf(b, id);
    }
    forall id | id in a ensures a[id] == b[id] {
      assert TimeOf(a, id) == TimeOf(b, id);
    }
  }

  /** The board does not depend on the order in which anything is reported. */
  lemma OrderDoesNotMatter(i: Inputs, j: Inputs, shown: seq<State>, shown': seq<State>)
    requires DistinctSources(i.nodes) && DistinctSources(j.nodes) && forall n :: n in i.nodes <==> n in j.nodes
    requires forall m :: m in i.messages <==> m in j.messages
    requires forall f :: f in i.favorites <==> f in j.favorites
    requires forall r :: r in i.relays <==> r in j.relays
    requires i.now == j.now && i.cap == j.cap
    requires IsWorkingSet(i, shown) && IsWorkingSet(j, shown')
    ensures shown == shown'
  {
    NodesForgetOrder(i.nodes, j.nodes);
    MessagesForgetOrder(i.messages, j.messages);
    assert NormalIds(i.favorites) == NormalIds(j.favorites) && NormalIds(i.relays) == NormalIds(j.relays);
    SameSurvivors(i, j);
    var v :| IsRanking(i, v) && shown == Assemble(i, v);
    var w :| IsRanking(j, w) && shown' == Assemble(j, w);
    assert IsRanking(i, w);
    RankingIsUnique(i, v, w);
  }

  lemma SameSurvivors(i: Inputs, j: Inputs)
    requires You(i.nodes) == You(j.nodes) && Remotes(i.nodes) == Remotes(j.nodes)
    requires Latest(i.messages) == Latest(j.messages)
    requires NormalIds(i.relays) == NormalIds(j.relays) && i.now == j.now
    ensures Survivors(i) == Survivors(j) && RelayIds(i) == RelayIds(j)
  {
    forall id ensures StateOf(i, id) == StateOf(j, id) {
    }
  }
}
