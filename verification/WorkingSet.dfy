/** Which nodes the MESH board shows: YOU, the best-ranked remotes up to a cap, and every surviving relay. */
module WorkingSet {
  import opened Common
  import opened Sorting
  import K = ProfileKeys
  import E = Encounters

  // ----- Node IDs

  predicate AllDigits(s: string) {
    s != [] && forall i :: 0 <= i < |s| ==> '0' <= s[i] <= '9'
  }

  function Decimal(s: string): nat
    requires forall i :: 0 <= i < |s| ==> '0' <= s[i] <= '9'
  {
    if s == [] then 0 else Decimal(s[..|s| - 1]) * 10 + (s[|s| - 1] as int - '0' as int)
  }

  /** Hexadecimal text, padded with zeros to at least `width`. */
  function PaddedHex(value: nat, width: nat): string
    decreases value, width
  {
    if value == 0 && width == 0 then []
    else PaddedHex(value / 16, Max(0, width - 1)) + [K.HexDigit(value % 16)]
  }

  function NormalId(id: string): string {
    var lowered := E.Lower(K.Strip(id));
    if AllDigits(lowered) then "!" + PaddedHex(Decimal(lowered), 8) else lowered
  }

  lemma {:induction false} PaddedHexIsPlain(value: nat, width: nat)
    ensures forall i :: 0 <= i < |PaddedHex(value, width)| ==>
      var c := PaddedHex(value, width)[i]; '0' <= c <= '9' || 'a' <= c <= 'f'
    ensures value > 0 || width > 0 ==> PaddedHex(value, width) != []
    decreases value, width
  {
    if value > 0 || width > 0 {
      PaddedHexIsPlain(value / 16, Max(0, width - 1));
    }
  }

  predicate Settled(s: string) {
    (s == "" || (!K.Space(s[0]) && !K.Space(s[|s| - 1]))) && forall i :: 0 <= i < |s| ==> !('A' <= s[i] <= 'Z')
  }

  lemma SettledStays(s: string)
    requires Settled(s)
    ensures E.Lower(K.Strip(s)) == s
  {
    if s != "" {
      K.StripLeavesAlone(s);
    }
  }

  lemma {:induction false} StripLeftEnds(s: string)
    ensures K.StripLeft(s) == "" || !K.Space(K.StripLeft(s)[0])
  {
    if s != [] && K.Space(s[0]) {
      StripLeftEnds(s[1..]);
    }
  }

  lemma {:induction false} StripRightEnds(s: string)
    ensures var r := K.StripRight(s); r <= s && (r == "" || !K.Space(r[|r| - 1]))
  {
    if s != [] && K.Space(s[|s| - 1]) {
      StripRightEnds(s[..|s| - 1]);
    }
  }

  /** Every spelling of an ID settles after one step. */
  lemma NormalIdIsIdempotent(id: string)
    ensures NormalId(NormalId(id)) == NormalId(id)
  {
    StripLeftEnds(id);
    StripRightEnds(K.StripLeft(id));
    var stripped := K.Strip(id);
    var lowered := E.Lower(stripped);
    assert Settled(lowered) by {
      assert stripped != "" ==> stripped[0] == K.StripLeft(id)[0];
    }
    if AllDigits(lowered) {
      var hex := PaddedHex(Decimal(lowered), 8);
      PaddedHexIsPlain(Decimal(lowered), 8);
      var text := "!" + hex;
      assert text[0] == '!' && text[|text| - 1] == hex[|hex| - 1];
      assert Settled(text);
      SettledStays(text);
    } else {
      SettledStays(lowered);
    }
  }

  // ----- The order of IDs

  predicate LexLe(a: string, b: string) {
    a == [] || (b != [] && (a[0] < b[0] || (a[0] == b[0] && LexLe(a[1..], b[1..]))))
  }

  lemma {:induction false} LexTotal(a: string, b: string)
    ensures LexLe(a, b) || LexLe(b, a)
    ensures LexLe(a, b) && LexLe(b, a) ==> a == b
  {
    if a != [] && b != [] {
      LexTotal(a[1..], b[1..]);
      if a[0] == b[0] && a[1..] == b[1..] {
        assert a == [a[0]] + a[1..] && b == [b[0]] + b[1..];
      }
    }
  }

  lemma {:induction false} LexTransitive(a: string, b: string, c: string)
    requires LexLe(a, b) && LexLe(b, c)
    ensures LexLe(a, c)
  {
    if a != [] && a[0] == b[0] == c[0] {
      LexTransitive(a[1..], b[1..], c[1..]);
    }
  }

  // ----- Nodes

  /** `details` stands for the metadata that selection does not look at. */
  datatype Node = Node(id: string, isLocal: bool, lastHeard: Option<real>, details: nat)

  datatype State = State(node: Node, isClient: bool, isRelay: bool, lastInteractionAt: Option<real>)

  datatype Interaction = Interaction(id: string, at: real)

  datatype Inputs = Inputs(nodes: seq<Node>, now: real, messages: seq<Interaction>, favorites: seq<string>,
                           relays: seq<string>, cap: int)

  datatype Tier = ACTIVE | STALE | VERY_OLD

  const ACTIVE_WINDOW: real := 7200.0
  const VERY_OLD_AGE: real := 86400.0

  predicate IsActive(heard: Option<real>, now: real) {
    heard.Some? && heard.value > 0.0 && 0.0 <= now - heard.value < ACTIVE_WINDOW
  }

  function Fresher(a: Option<real>, b: Option<real>): Option<real> {
    if a.None? then b else if b.None? then a else Some(E.Greater(a.value, b.value))
  }

  function ActivityTier(s: State, now: real): Tier {
    var freshest := Fresher(s.lastInteractionAt, s.node.lastHeard);
    if s.node.isLocal then ACTIVE
    else if IsActive(freshest, now) then ACTIVE
    else if freshest.None? then (if s.isRelay then ACTIVE else VERY_OLD)
    else if now - freshest.value < VERY_OLD_AGE then STALE
    else VERY_OLD
  }

  // ----- Candidates

  function Normalized(n: Node): Node {
    n.(id := NormalId(n.id))
  }

  function Locals(nodes: seq<Node>): seq<Node> {
    if nodes == [] then []
    else
      var front, last := Locals(nodes[..|nodes| - 1]), nodes[|nodes| - 1];
      if NormalId(last.id) != "" && last.isLocal then front + [Normalized(last)] else front
  }

  function SetDefault(known: map<string, Node>, n: Node): map<string, Node> {
    if n.id in known then known else known[n.id := n]
  }

  function Known(nodes: seq<Node>): map<string, Node> {
    if nodes == [] then map[]
    else
      var front, last := Known(nodes[..|nodes| - 1]), nodes[|nodes| - 1];
      if NormalId(last.id) != "" && !last.isLocal then SetDefault(front, Normalized(last)) else front
  }

  function Demoted(known: map<string, Node>, locals: seq<Node>): map<string, Node> {
    if locals == [] then known
    else SetDefault(Demoted(known, locals[..|locals| - 1]), locals[|locals| - 1].(isLocal := false))
  }

  /** YOU, when exactly one node claims to be. */
  function You(nodes: seq<Node>): Option<Node> {
    if |Locals(nodes)| == 1 then Some(Locals(nodes)[0]) else None
  }

  function Remotes(nodes: seq<Node>): map<string, Node> {
    if You(nodes).Some? then Known(nodes) - {You(nodes).value.id} else Demoted(Known(nodes), Locals(nodes))
  }

  function Latest(messages: seq<Interaction>): map<string, real> {
    if messages == [] then map[]
    else
      var front, last := Latest(messages[..|messages| - 1]), messages[|messages| - 1];
      var id := NormalId(last.id);
      if id != "" && (id !in front || last.at > front[id]) then front[id := last.at] else front
  }

  function NormalIds(ids: seq<string>): set<string> {
    set id | id in ids :: NormalId(id)
  }

  function YouId(i: Inputs): set<string> {
    if You(i.nodes).Some? then {You(i.nodes).value.id} else {}
  }

  function RelayIds(i: Inputs): set<string> {
    NormalIds(i.relays) - {""} - YouId(i)
  }

  function CandidateIds(i: Inputs): set<string> {
    (Remotes(i.nodes).Keys + Latest(i.messages).Keys - YouId(i)) + RelayIds(i)
  }

  function StateOf(i: Inputs, id: string): State {
    var known, latest := Remotes(i.nodes), Latest(i.messages);
    State(if id in known then known[id] else Node(id, false, None, 0), id in latest, id in RelayIds(i),
          if id in latest then Some(latest[id]) else None)
  }

  ghost function Survivors(i: Inputs): set<State> {
    set id | id in CandidateIds(i) && ActivityTier(StateOf(i, id), i.now) != VERY_OLD :: StateOf(i, id)
  }

  // ----- Ranking

  function ActiveRank(s: State, now: real): int {
    if IsActive(s.node.lastHeard, now) then 0 else 1
  }

  function FavoriteRank(s: State, favorites: set<string>): int {
    if s.node.id in favorites then 0 else 1
  }

  function Recency(s: State): Option<real> {
    Fresher(s.lastInteractionAt, s.node.lastHeard)
  }

  /** More recent first, no time at all last. */
  predicate AtLeastAsRecent(a: Option<real>, b: Option<real>) {
    b.None? || (a.Some? && a.value >= b.value)
  }

  predicate RanksFirst(now: real, favorites: set<string>, a: State, b: State) {
    var x, y := ActiveRank(a, now), ActiveRank(b, now);
    var f, g := FavoriteRank(a, favorites), FavoriteRank(b, favorites);
    x < y || (x == y && (f < g || (f == g &&
      (!AtLeastAsRecent(Recency(b), Recency(a)) ||
       (Recency(a) == Recency(b) && LexLe(a.node.id, b.node.id))))))
  }

  function RankOrder(now: real, favorites: set<string>): (State, State) -> bool {
    (a, b) => RanksFirst(now, favorites, a, b)
  }

  lemma RanksTransitive(now: real, favorites: set<string>, a: State, b: State, c: State)
    requires RanksFirst(now, favorites, a, b) && RanksFirst(now, favorites, b, c)
    ensures RanksFirst(now, favorites, a, c)
  {
    if LexLe(a.node.id, b.node.id) && LexLe(b.node.id, c.node.id) {
      LexTransitive(a.node.id, b.node.id, c.node.id);
    }
  }

  lemma RanksTotal(now: real, favorites: set<string>, a: State, b: State)
    ensures RanksFirst(now, favorites, a, b) || RanksFirst(now, favorites, b, a)
    ensures RanksFirst(now, favorites, a, b) && RanksFirst(now, favorites, b, a) ==> a.node.id == b.node.id
  {
    LexTotal(a.node.id, b.node.id);
  }

  lemma RankOrderIsTotal(now: real, favorites: set<string>)
    ensures TotalPreorder(RankOrder(now, favorites))
  {
    var le := RankOrder(now, favorites);
    forall a, b ensures le(a, b) || le(b, a) {
      RanksTotal(now, favorites, a, b);
    }
    forall a, b, c | le(a, b) && le(b, c) ensures le(a, c) {
      RanksTransitive(now, favorites, a, b, c);
    }
  }

  // ----- The board

  function KeepRelays(states: seq<State>, relays: set<string>): seq<State> {
    if states == [] then []
    else
      var front, last := KeepRelays(states[..|states| - 1], relays), states[|states| - 1];
      if last.node.id in relays then front + [last] else front
  }

  function Cap(i: Inputs, n: nat): nat {
    Min(Max(0, i.cap), n)
  }

  function YouState(n: Node): State {
    State(n, false, false, None)
  }

  /** YOU, the first `cap` of the ranking, then the relays the cap cut off. */
  function Assemble(i: Inputs, ranking: seq<State>): seq<State> {
    var k := Cap(i, |ranking|);
    (if You(i.nodes).Some? then [YouState(You(i.nodes).value)] else []) +
    ranking[..k] + KeepRelays(ranking[k..], RelayIds(i))
  }

  /** Every survivor once, best rank first. */
  ghost predicate IsRanking(i: Inputs, ranking: seq<State>) {
    Sorted(ranking, RankOrder(i.now, NormalIds(i.favorites))) && NoDup(ranking) &&
    forall s :: s in ranking <==> s in Survivors(i)
  }

  ghost predicate IsWorkingSet(i: Inputs, shown: seq<State>) {
    exists ranking :: IsRanking(i, ranking) && shown == Assemble(i, ranking)
  }
}
