/** Which nodes the board prefers, in terms of times, favourites and IDs. */
module WorkingSetRanks {
  import opened Common
  import opened Sorting
  import opened WorkingSet
  import opened WorkingSetProperties

  // ----- The preference

  /** Heard within the last two hours. */
  ghost predicate NowActive(i: Inputs, s: State) {
    match s.node.lastHeard
    case None => false
    case Some(t) => t > 0.0 && t <= i.now && i.now < t + 7200.0
  }

  ghost predicate Favorite(i: Inputs, s: State) {
    exists f :: f in i.favorites && NormalId(f) == s.node.id
  }

  /** When the node was heard and when it last wrote, as far as known. */
  function Times(s: State): set<real> {
    (if s.node.lastHeard.Some? then {s.node.lastHeard.value} else {}) +
    (if s.lastInteractionAt.Some? then {s.lastInteractionAt.value} else {})
  }

  ghost predicate MoreRecent(a: State, b: State) {
    exists x :: x in Times(a) && forall y :: y in Times(b) ==> y < x
  }

  /** One ID comes before the other in code-point order: they agree for a while, and then it ends or is smaller. */
  ghost predicate IdBefore(x: string, y: string) {
    exists n: nat :: DiffersAt(x, y, n)
  }

  ghost predicate DiffersAt(x: string, y: string, n: nat) {
    n <= |x| && n < |y| && x[..n] == y[..n] && (n < |x| ==> x[n] < y[n])
  }

  /** Active ones first, then favourites, then the more recent, then the smaller ID. */
  ghost predicate Outranks(i: Inputs, a: State, b: State) {
    if NowActive(i, a) != NowActive(i, b) then NowActive(i, a)
    else if Favorite(i, a) != Favorite(i, b) then Favorite(i, a)
    else if MoreRecent(a, b) || MoreRecent(b, a) then MoreRecent(a, b)
    else IdBefore(a.node.id, b.node.id)
  }

  // ----- The ranking is by that preference

  lemma {:induction false} LexIsBefore(x: string, y: string)
    ensures LexLe(x, y) && x != y ==> IdBefore(x, y)
    ensures IdBefore(x, y) ==> LexLe(x, y) && x != y
  {
    if x == [] || y == [] || x[0] != y[0] {
      if LexLe(x, y) && x != y {
        assert DiffersAt(x, y, 0);
      }
    } else {
      LexIsBefore(x[1..], y[1..]);
      assert x == [x[0]] + x[1..] && y == [y[0]] + y[1..];
      if IdBefore(x[1..], y[1..]) {
        var n: nat :| DiffersAt(x[1..], y[1..], n);
        assert x[..n + 1] == [x[0]] + x[1..][..n] && y[..n + 1] == [y[0]] + y[1..][..n];
        assert DiffersAt(x, y, n + 1);
      }
      if IdBefore(x, y) {
        var n: nat :| DiffersAt(x, y, n);
        assert n > 0;
        assert x[1..][..n - 1] == x[..n][1..] && y[1..][..n - 1] == y[..n][1..];
        assert DiffersAt(x[1..], y[1..], n - 1);
      }
    }
  }

  lemma RecencyIsLatest(s: State)
    ensures Recency(s).None? <==> Times(s) == {}
    ensures Recency(s).Some? ==> Recency(s).value in Times(s) && forall y :: y in Times(s) ==> y <= Recency(s).value
  {
  }

  lemma RecencyCompares(a: State, b: State)
    ensures MoreRecent(a, b) <==> !AtLeastAsRecent(Recency(b), Recency(a))
  {
    RecencyIsLatest(a);
    RecencyIsLatest(b);
    if MoreRecent(a, b) {
      var x :| x in Times(a) && forall y :: y in Times(b) ==> y < x;
      assert x <= Recency(a).value;
    }
    if !AtLeastAsRecent(Recency(b), Recency(a)) {
      var x := Recency(a).value;
      assert x in Times(a) && forall y :: y in Times(b) ==> y < x;
    }
  }

  lemma FavoriteIs(i: Inputs, s: State)
    ensures Favorite(i, s) <==> s.node.id in NormalIds(i.favorites)
  {
  }

  lemma RanksFirstIsOutranks(i: Inputs, a: State, b: State)
    requires a.node.id != b.node.id
    ensures RanksFirst(i.now, NormalIds(i.favorites), a, b) <==> Outranks(i, a, b)
  {
    FavoriteIs(i, a);
    FavoriteIs(i, b);
    RecencyCompares(a, b);
    RecencyCompares(b, a);
    LexIsBefore(a.node.id, b.node.id);
    LexTotal(a.node.id, b.node.id);
  }

  // ----- What that means for the board

  lemma OwnId(i: Inputs, a: State, b: State)
    requires a in Survivors(i) && b in Survivors(i) && a != b
    ensures a.node.id != b.node.id
  {
    SurvivorIs(i, a);
    SurvivorIs(i, b);
  }

  /** Of two survivors the preferred one stands before the other in the ranking. */
  lemma PreferredFirst(i: Inputs, ranking: seq<State>, x: nat, y: nat)
    requires IsRanking(i, ranking) && x < |ranking| && y < |ranking| && Outranks(i, ranking[x], ranking[y])
    requires ranking[x] != ranking[y]
    ensures x < y
  {
    OwnId(i, ranking[x], ranking[y]);
    RanksFirstIsOutranks(i, ranking[x], ranking[y]);
    if y < x {
      assert RankOrder(i.now, NormalIds(i.favorites))(ranking[y], ranking[x]);
      RanksTotal(i.now, NormalIds(i.favorites), ranking[x], ranking[y]);
    }
  }

  lemma RankedInOrder(i: Inputs, ranking: seq<State>, x: nat, y: nat)
    requires IsRanking(i, ranking) && x < y < |ranking|
    ensures Outranks(i, ranking[x], ranking[y])
  {
    assert RankOrder(i.now, NormalIds(i.favorites))(ranking[x], ranking[y]);
    OwnId(i, ranking[x], ranking[y]);
    RanksFirstIsOutranks(i, ranking[x], ranking[y]);
  }

  /** If a survivor that is no relay is shown, so is every survivor preferred to it. */
  lemma PreferredIsShown(i: Inputs, shown: seq<State>, a: State, b: State)
    requires IsWorkingSet(i, shown) && a in Survivors(i) && b in Survivors(i) && a != b && Outranks(i, a, b)
    requires b in shown && !b.isRelay
    ensures a in shown
  {
    var ranking :| IsRanking(i, ranking) && shown == Assemble(i, ranking);
    SurvivorIs(i, b);
    YouIsLocal(i);
    ShownExactly(i, ranking, a);
    ShownExactly(i, ranking, b);
    var k := Cap(i, |ranking|);
    assert b in ranking[..k];
    var y :| 0 <= y < k && ranking[y] == b;
    var x :| 0 <= x < |ranking| && ranking[x] == a;
    PreferredFirst(i, ranking, x, y);
    assert ranking[..k][x] == a;
  }

  lemma YouIsLocal(i: Inputs)
    ensures You(i.nodes).Some? ==> You(i.nodes).value.isLocal
  {
    LocalsAreLocal(i.nodes);
  }

  /** How many remotes the cap admits. */
  ghost function Admitted(i: Inputs): nat {
    Min(Max(0, i.cap), |Survivors(i)|)
  }

  lemma RankingSize(i: Inputs, ranking: seq<State>)
    requires IsRanking(i, ranking)
    ensures |ranking| == |Survivors(i)|
  {
    NoDupSetSize(ranking, Survivors(i));
  }

  lemma {:induction false} NoDupSetSize(states: seq<State>, all: set<State>)
    requires NoDup(states) && forall s :: s in states <==> s in all
    ensures |states| == |all|
  {
    if states == [] {
      assert all == {};
    } else {
      NoDupSplit(states);
      assert states == [states[0]] + states[1..];
      NoDupSetSize(states[1..], all - {states[0]});
    }
  }

  ghost predicate StandAt(states: seq<State>, kept: seq<State>, at: seq<nat>) {
    && |at| == |kept| && (forall x, y :: 0 <= x < y < |at| ==> at[x] < at[y])
    && forall x :: 0 <= x < |at| ==> at[x] < |states| && kept[x] == states[at[x]]
  }

  lemma StandNext(states: seq<State>, kept: seq<State>, at: seq<nat>, more: seq<nat>)
    requires states != [] && StandAt(states[..|states| - 1], kept, at) && more == at + [|states| - 1]
    ensures StandAt(states, kept, at) && StandAt(states, kept + [states[|states| - 1]], more)
  {
  }

  lemma {:induction false} KeptPlaces(states: seq<State>, relays: set<string>) returns (at: seq<nat>)
    ensures StandAt(states, KeepRelays(states, relays), at)
  {
    if states == [] {
      at := [];
    } else {
      var n := |states| - 1;
      var front := KeptPlaces(states[..n], relays);
      var more: seq<nat> := front + [n];
      StandNext(states, KeepRelays(states[..n], relays), front, more);
      at := if states[n].node.id in relays then more else front;
    }
  }

  function Lead(i: Inputs): nat {
    if You(i.nodes).Some? then 1 else 0
  }

  /** The places of the first `k`, and then of those kept from the rest. */
  function Places(k: nat, kept: seq<nat>): seq<nat> {
    seq(k, x => x) + seq(|kept|, x requires 0 <= x < |kept| => k + kept[x])
  }

  lemma PlacesAre(ranking: seq<State>, k: nat, rest: seq<State>, kept: seq<nat>)
    requires k <= |ranking| && |kept| == |rest| && forall x, y :: 0 <= x < y < |kept| ==> kept[x] < kept[y]
    requires forall x :: 0 <= x < |kept| ==> k + kept[x] < |ranking| && rest[x] == ranking[k + kept[x]]
    ensures var at, shown := Places(k, kept), ranking[..k] + rest;
      && |at| == |shown| && (forall x, y :: 0 <= x < y < |at| ==> at[x] < at[y])
      && forall x :: 0 <= x < |at| ==> at[x] < |ranking| && shown[x] == ranking[at[x]]
  {
  }

  lemma Dropped(lead: seq<State>, bounded: seq<State>, rest: seq<State>)
    ensures (lead + bounded + rest)[|lead|..] == bounded + rest
  {
  }

  lemma AfterYou(i: Inputs, ranking: seq<State>)
    ensures var k := Cap(i, |ranking|);
      var bounded := ranking[..k] + KeepRelays(ranking[k..], RelayIds(i));
      |Assemble(i, ranking)| == Lead(i) + |bounded| && Assemble(i, ranking)[Lead(i)..] == bounded
  {
    var k := Cap(i, |ranking|);
    Dropped(if You(i.nodes).Some? then [YouState(You(i.nodes).value)] else [], ranking[..k],
            KeepRelays(ranking[k..], RelayIds(i)));
  }

  lemma PlacesIn(ranking: seq<State>, k: nat, relays: set<string>) returns (at: seq<nat>)
    requires k <= |ranking|
    ensures var bounded := ranking[..k] + KeepRelays(ranking[k..], relays);
      && |at| == |bounded| && (forall x, y :: 0 <= x < y < |at| ==> at[x] < at[y])
      && forall x :: 0 <= x < |at| ==> at[x] < |ranking| && bounded[x] == ranking[at[x]]
  {
    var tail := ranking[k..];
    var rest := KeepRelays(tail, relays);
    var kept := KeptPlaces(tail, relays);
    forall x | 0 <= x < |kept| ensures k + kept[x] < |ranking| && rest[x] == ranking[k + kept[x]] {
      assert tail[kept[x]] == ranking[k + kept[x]];
    }
    PlacesAre(ranking, k, rest, kept);
    at := Places(k, kept);
  }

  /** Where in the ranking everybody shown after YOU comes from. */
  lemma ShownPlaces(i: Inputs, ranking: seq<State>) returns (at: seq<nat>)
    ensures var shown := Assemble(i, ranking);
      && |shown| == Lead(i) + |at| && Cap(i, |ranking|) <= |at|
      && (forall x, y :: 0 <= x < y < |at| ==> at[x] < at[y])
      && (forall x :: 0 <= x < |at| ==> at[x] < |ranking| && shown[Lead(i) + x] == ranking[at[x]])
  {
    AfterYou(i, ranking);
    at := PlacesIn(ranking, Cap(i, |ranking|), RelayIds(i));
    var shown := Assemble(i, ranking);
    forall x | 0 <= x < |at| ensures at[x] < |ranking| && shown[Lead(i) + x] == ranking[at[x]] {
      assert shown[Lead(i)..][x] == shown[Lead(i) + x];
    }
  }

  lemma BeyondTheCap(i: Inputs, ranking: seq<State>, x: nat)
    requires IsRanking(i, ranking) && Lead(i) + Cap(i, |ranking|) <= x < |Assemble(i, ranking)|
    ensures Assemble(i, ranking)[x].node.id in RelayIds(i)
  {
    var k := Cap(i, |ranking|);
    var rest := KeepRelays(ranking[k..], RelayIds(i));
    KeptRelaysAre(ranking[k..], RelayIds(i));
    assert Assemble(i, ranking)[Lead(i) + k..] == rest;
    assert Assemble(i, ranking)[x] == rest[x - Lead(i) - k] && rest[x - Lead(i) - k] in rest;
  }

  /** After YOU, if there is one, as many remotes as the cap admits come in the order of preference; the rest are
      relays, in that order too. */
  lemma ShownByPreference(i: Inputs, shown: seq<State>, x: nat, y: nat)
    requires IsWorkingSet(i, shown)
    ensures Lead(i) + Admitted(i) <= |shown|
    ensures Lead(i) <= x < |shown| ==> shown[x] in Survivors(i)
    ensures Lead(i) <= x < y < |shown| ==> Outranks(i, shown[x], shown[y])
    ensures Lead(i) + Admitted(i) <= x < |shown| ==> shown[x].isRelay
  {
    var ranking :| IsRanking(i, ranking) && shown == Assemble(i, ranking);
    RankingSize(i, ranking);
    var at := ShownPlaces(i, ranking);
    if Lead(i) <= x < |shown| {
      assert shown[x] == ranking[at[x - Lead(i)]];
      SurvivorIs(i, shown[x]);
      if Lead(i) + Admitted(i) <= x {
        BeyondTheCap(i, ranking, x);
      }
    }
    if Lead(i) <= x < y < |shown| {
      assert shown[y] == ranking[at[y - Lead(i)]];
      RankedInOrder(i, ranking, at[x - Lead(i)], at[y - Lead(i)]);
    }
  }
}
