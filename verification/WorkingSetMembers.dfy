/** Who may be on the MESH board at all: which spellings are one node, and which nodes are fresh enough. */
module WorkingSetMembers {
  import opened Common
  import opened WorkingSet
  import opened WorkingSetProperties
  import opened WorkingSetRanks
  import K = ProfileKeys
  import E = Encounters
  import D = SendDestinations

  // ----- The spellings of one ID

  /** A number in decimal digits. */
  function DecimalText(value: nat): string {
    (if value < 10 then "" else DecimalText(value / 10)) + [('0' as int + value % 10) as char]
  }

  ghost predicate Zeros(s: string) {
    forall c :: c in s ==> c == '0'
  }

  lemma DecimalNext(front: string, n: nat, d: nat)
    requires (forall i :: 0 <= i < |front| ==> '0' <= front[i] <= '9') && Decimal(front) == n && d < 10
    ensures var s := front + [('0' as int + d) as char]; AllDigits(s) && Decimal(s) == n * 10 + d
  {
    var s := front + [('0' as int + d) as char];
    assert s[..|s| - 1] == front;
  }

  lemma {:induction false} DecimalIsRead(zeros: string, value: nat)
    requires Zeros(zeros)
    ensures var s := zeros + DecimalText(value); AllDigits(s) && Decimal(s) == value
    decreases value
  {
    ZerosAreNothing(zeros);
    if value < 10 {
      DecimalNext(zeros, 0, value);
      assert DecimalText(value) == [('0' as int + value) as char];
    } else {
      DecimalIsRead(zeros, value / 10);
      DecimalNext(zeros + DecimalText(value / 10), value / 10, value % 10);
      assert zeros + DecimalText(value) == zeros + DecimalText(value / 10) + [('0' as int + value % 10) as char];
    }
  }

  lemma {:induction false} ZerosAreNothing(zeros: string)
    requires Zeros(zeros)
    ensures (forall i :: 0 <= i < |zeros| ==> '0' <= zeros[i] <= '9') && Decimal(zeros) == 0
  {
    if zeros != "" {
      var n := |zeros| - 1;
      assert zeros[n] in zeros && forall c :: c in zeros[..n] ==> c in zeros;
      ZerosAreNothing(zeros[..n]);
    }
  }

  lemma {:induction false} PaddedIsHexText(value: nat, width: nat)
    requires value < K.Pow16(width)
    ensures PaddedHex(value, width) == K.HexText(value, width)
    decreases width
  {
    if width > 0 {
      PaddedIsHexText(value / 16, width - 1);
    }
  }

  lemma HexStaysLower(s: string)
    requires K.HexOnly(s)
    ensures E.Lower(s) == s && E.Lower(K.Upper(s)) == s
  {
    forall i | 0 <= i < |s| ensures E.Lower(s)[i] == s[i] && E.Lower(K.Upper(s))[i] == s[i] {
      assert s[i] in s;
    }
  }

  lemma DigitsAreNormal(front: string, s: string, back: string)
    requires AllDigits(s) && D.Blank(front) && D.Blank(back)
    ensures NormalId(front + s + back) == "!" + PaddedHex(Decimal(s), 8)
  {
    D.BlanksGo(front, s, back);
    assert E.Lower(s) == s;
  }

  lemma DecimalIsNormal(front: string, zeros: string, value: nat, back: string)
    requires value < 0x1_0000_0000 && Zeros(zeros) && D.Blank(front) && D.Blank(back)
    ensures NormalId(front + (zeros + DecimalText(value)) + back) == "!" + K.HexText(value, 8)
  {
    DecimalIsRead(zeros, value);
    DigitsAreNormal(front, zeros + DecimalText(value), back);
    K.Pow16Of8();
    PaddedIsHexText(value, 8);
  }

  lemma HexIsNormal(front: string, digits: string, value: nat, back: string)
    requires D.Spells(digits, value) && D.Blank(front) && D.Blank(back)
    ensures NormalId(front + ("!" + digits) + back) == "!" + K.HexText(value, 8)
  {
    var t := "!" + digits;
    D.SpelledIsRead(digits, value);
    assert t[8] == digits[7];
    D.BlanksGo(front, t, back);
    K.Pow16Of8();
    K.HexTextReads(value, 8);
    HexStaysLower(K.HexText(value, 8));
    assert E.Lower(t) == "!" + E.Lower(digits);
    assert E.Lower(t)[0] == '!';
  }

  /** `id` names the node with that number: in decimal, leading zeros allowed, or as "!" and eight hexadecimal digits in
      either case; with or without blanks around it. */
  ghost predicate Names(id: string, value: nat) {
    value < 0x1_0000_0000 &&
    exists front, text, back ::
      id == front + text + back && D.Blank(front) && D.Blank(back) && NamesPlainly(text, value)
  }

  ghost predicate NamesPlainly(text: string, value: nat) {
    || (exists digits :: text == "!" + digits && D.Spells(digits, value))
    || (exists zeros :: text == zeros + DecimalText(value) && Zeros(zeros))
  }

  lemma NamesIsNormal(id: string, value: nat)
    requires Names(id, value)
    ensures NormalId(id) == "!" + K.HexText(value, 8)
  {
    var front, text, back :|
      id == front + text + back && D.Blank(front) && D.Blank(back) && NamesPlainly(text, value);
    if digits :| text == "!" + digits && D.Spells(digits, value) {
      HexIsNormal(front, digits, value, back);
    } else {
      var zeros :| text == zeros + DecimalText(value) && Zeros(zeros);
      DecimalIsNormal(front, zeros, value, back);
    }
  }

  /** Two spellings are joined exactly when they name the same node. */
  lemma SpellingsAgreeExactly(id: string, value: nat, id': string, value': nat)
    requires Names(id, value) && Names(id', value')
    ensures NormalId(id) == NormalId(id') <==> value == value'
  {
    NamesIsNormal(id, value);
    NamesIsNormal(id', value');
    K.Pow16Of8();
    K.HexTextReads(value, 8);
    K.HexTextReads(value', 8);
    assert ("!" + K.HexText(value, 8))[1..] == K.HexText(value, 8);
    assert ("!" + K.HexText(value', 8))[1..] == K.HexText(value', 8);
  }

  /** Nothing but blanks is nobody's ID. */
  lemma {:induction false} BlankIsNobody(id: string)
    requires D.Blank(id)
    ensures NormalId(id) == ""
  {
    D.LeftBlankGoes(id, "");
    assert id + "" == id;
  }

  /** Any other text is taken as it is, in lower case and without the blanks around it. */
  lemma OtherIdsAreLowered(front: string, id: string, back: string)
    requires D.Blank(front) && D.Blank(back) && id != "" && !D.White(id[0]) && !D.White(id[|id| - 1])
    requires exists c :: c in id && !('0' <= c <= '9')
    ensures var normal := NormalId(front + id + back);
      && |normal| == |id|
      && forall i :: 0 <= i < |id| ==>
           if 'A' <= id[i] <= 'Z' then normal[i] as int == id[i] as int - 'A' as int + 'a' as int
           else normal[i] == id[i]
  {
    D.BlanksGo(front, id, back);
    var c :| c in id && !('0' <= c <= '9');
    var i :| 0 <= i < |id| && id[i] == c;
    assert !('0' <= E.Lower(id)[i] <= '9');
  }

  // ----- Old and fresh

  ghost predicate LatestTime(s: State, t: real) {
    t in Times(s) && forall u :: u in Times(s) ==> u <= t
  }

  /** Somebody seen within a day stays, and so does a relay that nothing else is known of; within two hours, or as
      such a relay, it is active. */
  lemma TierIsExact(s: State, now: real)
    requires !s.node.isLocal
    ensures ActivityTier(s, now) == VERY_OLD <==>
            if Times(s) == {} then !s.isRelay else forall t :: t in Times(s) ==> t + 86400.0 <= now
    ensures ActivityTier(s, now) == ACTIVE <==>
            if Times(s) == {} then s.isRelay
            else exists t :: LatestTime(s, t) && t > 0.0 && t <= now && now < t + 7200.0
  {
    RecencyIsLatest(s);
    forall t | LatestTime(s, t) ensures Recency(s) == Some(t) {
    }
    if Recency(s).Some? {
      assert LatestTime(s, Recency(s).value);
    }
  }

  // ----- Who is a candidate

  /** The node list first mentions the ID at `k`, among those that do not (or do) claim to be YOU. */
  ghost predicate FirstMention(nodes: seq<Node>, id: string, claims: bool, k: int) {
    && 0 <= k < |nodes| && NormalId(nodes[k].id) == id && nodes[k].isLocal == claims
    && forall j :: 0 <= j < k ==> NormalId(nodes[j].id) != id || nodes[j].isLocal != claims
  }

  lemma {:induction false} KnownIsFirst(nodes: seq<Node>, id: string)
    requires id != ""
    ensures id in Known(nodes) <==> exists k :: FirstMention(nodes, id, false, k)
    ensures forall k :: FirstMention(nodes, id, false, k) ==>
              id in Known(nodes) && Known(nodes)[id] == nodes[k].(id := id)
  {
    if nodes != [] {
      var n := |nodes| - 1;
      KnownIsFirst(nodes[..n], id);
      MentionsOfFront(nodes, id, false);
    }
  }

  lemma MentionsOfFront(nodes: seq<Node>, id: string, claims: bool)
    requires nodes != []
    ensures var n := |nodes| - 1;
      && (forall k :: FirstMention(nodes[..n], id, claims, k) <==> k < n && FirstMention(nodes, id, claims, k))
      && (FirstMention(nodes, id, claims, n) <==>
            && NormalId(nodes[n].id) == id && nodes[n].isLocal == claims
            && !exists k :: FirstMention(nodes[..n], id, claims, k))
  {
    var n := |nodes| - 1;
    SomeFirstMention(nodes[..n], id, claims);
  }

  lemma {:induction false} SomeFirstMention(nodes: seq<Node>, id: string, claims: bool)
    ensures (exists k :: FirstMention(nodes, id, claims, k)) <==>
            exists n :: n in nodes && NormalId(n.id) == id && n.isLocal == claims
  {
    if nodes != [] {
      var n := |nodes| - 1;
      var front := nodes[..n];
      SomeFirstMention(front, id, claims);
      assert nodes == front + [nodes[n]];
      if k :| FirstMention(front, id, claims, k) {
        assert FirstMention(nodes, id, claims, k);
      } else if NormalId(nodes[n].id) == id && nodes[n].isLocal == claims {
        assert FirstMention(nodes, id, claims, n);
      }
      if k :| FirstMention(nodes, id, claims, k) {
        assert nodes[k] in nodes;
      }
    }
  }

  /** `all` is `known` and the first entries that claim to be YOU. */
  ghost predicate AddsFirst(all: map<string, Node>, known: map<string, Node>, nodes: seq<Node>, id: string) {
    && (id in all <==> id in known || exists k :: FirstMention(nodes, id, true, k))
    && (id in known && id in all ==> all[id] == known[id])
    && forall k :: id !in known && FirstMention(nodes, id, true, k) && id in all ==>
         all[id].lastHeard == nodes[k].lastHeard
  }

  lemma DemotedNext(known: map<string, Node>, nodes: seq<Node>)
    requires nodes != []
    ensures var n := |nodes| - 1; var front := Demoted(known, Locals(nodes[..n]));
      Demoted(known, Locals(nodes)) ==
      if NormalId(nodes[n].id) != "" && nodes[n].isLocal
      then SetDefault(front, nodes[n].(id := NormalId(nodes[n].id), isLocal := false)) else front
  {
    var n := |nodes| - 1;
    if NormalId(nodes[n].id) != "" && nodes[n].isLocal {
      assert Locals(nodes)[..|Locals(nodes)| - 1] == Locals(nodes[..n]);
    }
  }

  lemma {:induction false} DemotedIsFirst(known: map<string, Node>, nodes: seq<Node>, id: string)
    requires id != ""
    ensures AddsFirst(Demoted(known, Locals(nodes)), known, nodes, id)
  {
    if nodes != [] {
      var n := |nodes| - 1;
      DemotedIsFirst(known, nodes[..n], id);
      MentionsOfFront(nodes, id, true);
      DemotedNext(known, nodes);
      AddsNext(Demoted(known, Locals(nodes[..n])), Demoted(known, Locals(nodes)), known, nodes, id);
    }
  }

  lemma AddsNext(front: map<string, Node>, all: map<string, Node>, known: map<string, Node>, nodes: seq<Node>,
                 id: string)
    requires nodes != [] && id != "" && AddsFirst(front, known, nodes[..|nodes| - 1], id)
    requires var last := nodes[|nodes| - 1];
      all == if NormalId(last.id) != "" && last.isLocal
             then SetDefault(front, last.(id := NormalId(last.id), isLocal := false)) else front
    ensures AddsFirst(all, known, nodes, id)
  {
    MentionsOfFront(nodes, id, true);
  }

  // ----- Who survives

  ghost predicate MentionedIn(nodes: seq<Node>, id: string) {
    exists n :: n in nodes && NormalId(n.id) == id
  }

  ghost predicate WroteAt(messages: seq<Interaction>, id: string, t: real) {
    exists m :: m in messages && NormalId(m.id) == id && m.at == t
  }

  /** The entry of the node list that stands for the ID: its first that does not claim to be YOU, else its first. */
  ghost predicate StandsFor(nodes: seq<Node>, id: string, k: int) {
    FirstMention(nodes, id, false, k) ||
    (FirstMention(nodes, id, true, k) && forall n :: n in nodes && NormalId(n.id) == id ==> n.isLocal)
  }

  /** A message from that ID, or the entry that stands for it, is dated `t`. */
  ghost predicate SeenAt(i: Inputs, id: string, t: real) {
    WroteAt(i.messages, id, t) || exists k :: StandsFor(i.nodes, id, k) && i.nodes[k].lastHeard == Some(t)
  }

  ghost predicate IsCandidate(i: Inputs, id: string) {
    && id != "" && id !in YouId(i)
    && (|| MentionedIn(i.nodes, id) || (exists t :: WroteAt(i.messages, id, t))
        || exists r :: r in i.relays && NormalId(r) == id)
  }

  lemma {:induction false} LocalsHold(nodes: seq<Node>)
    ensures forall n :: n in nodes && n.isLocal && NormalId(n.id) != "" ==> Normalized(n) in Locals(nodes)
  {
    if nodes != [] {
      LocalsHold(nodes[..|nodes| - 1]);
      assert nodes == nodes[..|nodes| - 1] + [nodes[|nodes| - 1]];
    }
  }

  /** Who else claims to be YOU has YOU's ID, when there is a YOU. */
  lemma OthersClaimNothing(nodes: seq<Node>, n: Node)
    requires You(nodes).Some? && n in nodes && n.isLocal && NormalId(n.id) != ""
    ensures NormalId(n.id) == You(nodes).value.id
  {
    LocalsHold(nodes);
    assert Normalized(n) == Locals(nodes)[0];
  }

  lemma NoOtherClaims(nodes: seq<Node>, id: string)
    requires You(nodes).Some? && id != "" && id != You(nodes).value.id
    ensures forall n :: n in nodes && NormalId(n.id) == id ==> !n.isLocal
    ensures forall k :: StandsFor(nodes, id, k) <==> FirstMention(nodes, id, false, k)
  {
    forall n | n in nodes && NormalId(n.id) == id ensures !n.isLocal {
      if n.isLocal {
        OthersClaimNothing(nodes, n);
      }
    }
  }

  /** The remote known by an ID is the entry that stands for it. */
  ghost predicate Represents(remotes: map<string, Node>, nodes: seq<Node>, id: string) {
    && (id in remotes <==> MentionedIn(nodes, id))
    && (id in remotes <==> exists k :: StandsFor(nodes, id, k))
    && forall k :: StandsFor(nodes, id, k) && id in remotes ==> remotes[id].lastHeard == nodes[k].lastHeard
  }

  lemma KnownRepresents(nodes: seq<Node>, id: string)
    requires You(nodes).Some? && id != "" && id != You(nodes).value.id
    ensures Represents(Known(nodes), nodes, id)
  {
    NoOtherClaims(nodes, id);
    KnownIsFirst(nodes, id);
    SomeFirstMention(nodes, id, false);
  }

  lemma DemotedRepresents(nodes: seq<Node>, id: string)
    requires id != ""
    ensures Represents(Demoted(Known(nodes), Locals(nodes)), nodes, id)
  {
    KnownIsFirst(nodes, id);
    DemotedIsFirst(Known(nodes), nodes, id);
    SomeFirstMention(nodes, id, false);
    SomeFirstMention(nodes, id, true);
    AllRepresents(Demoted(Known(nodes), Locals(nodes)), Known(nodes), nodes, id);
  }

  lemma AllRepresents(all: map<string, Node>, known: map<string, Node>, nodes: seq<Node>, id: string)
    requires AddsFirst(all, known, nodes, id)
    requires id in known <==> exists k :: FirstMention(nodes, id, false, k)
    requires forall k :: FirstMention(nodes, id, false, k) && id in known ==> known[id] == nodes[k].(id := id)
    requires (exists k :: FirstMention(nodes, id, false, k)) <==>
             exists n :: n in nodes && NormalId(n.id) == id && !n.isLocal
    requires (exists k :: FirstMention(nodes, id, true, k)) <==>
             exists n :: n in nodes && NormalId(n.id) == id && n.isLocal
    ensures Represents(all, nodes, id)
  {
    if id in known {
      var k :| FirstMention(nodes, id, false, k);
      assert StandsFor(nodes, id, k);
    } else if id in all {
      var k :| FirstMention(nodes, id, true, k);
      assert StandsFor(nodes, id, k);
    }
  }

  lemma RemoteRepresents(i: Inputs, id: string)
    requires id != "" && id !in YouId(i)
    ensures Represents(Remotes(i.nodes), i.nodes, id)
  {
    if You(i.nodes).Some? {
      KnownRepresents(i.nodes, id);
      assert id in Remotes(i.nodes) <==> id in Known(i.nodes);
    } else {
      DemotedRepresents(i.nodes, id);
    }
  }

  lemma CandidateExactly(i: Inputs, id: string)
    ensures id in CandidateIds(i) <==> IsCandidate(i, id)
  {
    if id == "" {
      NoBlankTimes(i.messages);
      NoBlankRemotes(i.nodes);
    } else {
      if id !in YouId(i) {
        RemoteRepresents(i, id);
      }
      LatestIsMax(i.messages, id);
      assert id in Latest(i.messages) <==> TimesOf(i.messages, id) != {};
      WroteIs(i.messages, id);
      assert id in RelayIds(i) <==> id !in YouId(i) && exists r :: r in i.relays && NormalId(r) == id;
    }
  }

  lemma WroteIs(messages: seq<Interaction>, id: string)
    ensures forall t :: WroteAt(messages, id, t) <==> t in TimesOf(messages, id)
    ensures (exists t :: WroteAt(messages, id, t)) <==> TimesOf(messages, id) != {}
  {
    if TimesOf(messages, id) != {} {
      var t :| t in TimesOf(messages, id);
      assert WroteAt(messages, id, t);
    }
  }

  lemma {:induction false} NoBlankKnown(nodes: seq<Node>)
    ensures "" !in Known(nodes) && forall n :: n in Locals(nodes) ==> n.id != ""
  {
    if nodes != [] {
      NoBlankKnown(nodes[..|nodes| - 1]);
    }
  }

  lemma {:induction false} NoBlankDemoted(known: map<string, Node>, locals: seq<Node>)
    requires "" !in known && forall n :: n in locals ==> n.id != ""
    ensures "" !in Demoted(known, locals)
  {
    if locals != [] {
      NoBlankDemoted(known, locals[..|locals| - 1]);
    }
  }

  lemma NoBlankRemotes(nodes: seq<Node>)
    ensures "" !in Remotes(nodes)
  {
    NoBlankKnown(nodes);
    NoBlankDemoted(Known(nodes), Locals(nodes));
  }

  lemma TimesAreThose(i: Inputs, id: string, s: State, remotes: map<string, Node>)
    requires Represents(remotes, i.nodes, id)
    requires s.node.lastHeard == if id in remotes then remotes[id].lastHeard else None
    requires E.IsGreatest(s.lastInteractionAt, TimesOf(i.messages, id))
    ensures (forall t :: t in Times(s) ==> SeenAt(i, id, t))
    ensures (forall t :: SeenAt(i, id, t) ==> exists u :: u in Times(s) && t <= u)
  {
    WroteIs(i.messages, id);
    forall t | t in Times(s) ensures SeenAt(i, id, t) {
      if s.node.lastHeard == Some(t) {
        var k :| StandsFor(i.nodes, id, k);
        assert i.nodes[k].lastHeard == Some(t);
      }
    }
    forall t | SeenAt(i, id, t) ensures exists u :: u in Times(s) && t <= u {
      if WroteAt(i.messages, id, t) {
        assert s.lastInteractionAt.value in Times(s);
      } else {
        assert t in Times(s);
      }
    }
  }

  /** What a candidate's state knows of times is the latest message and the entry that stands for it. */
  lemma TimesOfCandidate(i: Inputs, id: string)
    requires IsCandidate(i, id)
    ensures var times := Times(StateOf(i, id));
      && (forall t :: t in times ==> SeenAt(i, id, t))
      && (forall t :: SeenAt(i, id, t) ==> exists u :: u in times && t <= u)
  {
    RemoteRepresents(i, id);
    LatestIsMax(i.messages, id);
    TimesAreThose(i, id, StateOf(i, id), Remotes(i.nodes));
  }

  /** An ID is on the board's list of survivors exactly when somebody not YOU is known by it, wrote under it or relayed
      under it, and it was seen within a day, or was never seen and is a relay. */
  lemma SurvivesExactly(i: Inputs, id: string)
    ensures (exists s :: s in Survivors(i) && s.node.id == id) <==>
            IsCandidate(i, id) &&
            if exists t :: SeenAt(i, id, t) then exists t :: SeenAt(i, id, t) && i.now < t + 86400.0
            else exists r :: r in i.relays && NormalId(r) == id
  {
    CandidateExactly(i, id);
    if s :| s in Survivors(i) && s.node.id == id {
      SurvivorIs(i, s);
    }
    if IsCandidate(i, id) {
      var s := StateOf(i, id);
      TimesOfCandidate(i, id);
      RemotesOwnIds(i.nodes);
      assert s.node.id == id && !s.node.isLocal;
      TierIsExact(s, i.now);
      assert s in Survivors(i) <==> ActivityTier(s, i.now) != VERY_OLD;
    }
  }

  /** What the board says of a survivor: a client has written, a relay relays, and its times are the latest message's
      and those of the entry that stands for it. */
  lemma RolesAreExact(i: Inputs, s: State)
    requires s in Survivors(i)
    ensures s.isClient <==> exists t :: WroteAt(i.messages, s.node.id, t)
    ensures s.isRelay <==> exists r :: r in i.relays && NormalId(r) == s.node.id
    ensures E.IsGreatest(s.lastInteractionAt, TimesOf(i.messages, s.node.id))
    ensures if MentionedIn(i.nodes, s.node.id)
            then exists k :: StandsFor(i.nodes, s.node.id, k) && s.node.lastHeard == i.nodes[k].lastHeard
            else s.node.lastHeard == None
  {
    SurvivorIs(i, s);
    CandidateExactly(i, s.node.id);
    RemoteRepresents(i, s.node.id);
    LatestIsMax(i.messages, s.node.id);
    WroteIs(i.messages, s.node.id);
  }
}
