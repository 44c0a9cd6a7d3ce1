/** From the text a send is addressed with to the packets that report it heard. */
module SendDestinations {
  import opened Common
  import opened ProfileKeys
  import opened SendTracking

  // ----- Reading the text

  /** The white space of ASCII: tab, line feed, vertical tab, form feed, carriage return, the four separators, space. */
  ghost predicate White(c: char) {
    c as int in {0x09, 0x0A, 0x0B, 0x0C, 0x0D, 0x1C, 0x1D, 0x1E, 0x1F, 0x20}
  }

  ghost predicate Blank(s: string) {
    forall c :: c in s ==> White(c)
  }

  lemma {:induction false} LeftBlankGoes(front: string, s: string)
    requires Blank(front) && (s == "" || !White(s[0]))
    ensures StripLeft(front + s) == s
  {
    if front == "" {
      assert front + s == s;
    } else {
      assert front[0] in front && (front + s)[1..] == front[1..] + s;
      assert forall c :: c in front[1..] ==> c in front;
      LeftBlankGoes(front[1..], s);
    }
  }

  lemma {:induction false} RightBlankGoes(s: string, back: string)
    requires Blank(back) && (s == "" || !White(s[|s| - 1]))
    ensures StripRight(s + back) == s
  {
    if back == "" {
      assert s + back == s;
    } else {
      var n := |back| - 1;
      assert back[n] in back && (s + back)[..|s + back| - 1] == s + back[..n];
      assert forall c :: c in back[..n] ==> c in back;
      RightBlankGoes(s, back[..n]);
    }
  }

  lemma BlanksGo(front: string, s: string, back: string)
    requires Blank(front) && Blank(back) && s != "" && !White(s[0]) && !White(s[|s| - 1])
    ensures Strip(front + s + back) == s
  {
    assert front + s + back == front + (s + back);
    LeftBlankGoes(front, s + back);
    RightBlankGoes(s, back);
  }

  lemma UpperDigit(c: char)
    requires '0' <= c <= '9' || 'a' <= c <= 'f'
    ensures DigitValue(Upper([c])[0]) == DigitValue(c) != None && Upper([c])[0] != '_'
  {
  }

  lemma DigitsEnd(s: string, front: string, c: char)
    requires |s| > 1 && front == s[..|s| - 1] && c == s[|s| - 1] && s[|s| - 2] != '_'
    ensures Digits(s) ==
      if DigitValue(c).None? || Digits(front).None? then None else Some(Digits(front).value * 16 + DigitValue(c).value)
  {
  }

  lemma UpperEnds(s: string, u: string)
    requires HexOnly(s) && |s| > 1 && u == Upper(s)
    ensures var n := |s| - 1;
      && HexOnly(s[..n]) && u[..n] == Upper(s[..n]) && DigitValue(u[n]) == DigitValue(s[n])
      && s[n - 1] != '_' && u[n - 1] != '_'
  {
    var n := |s| - 1;
    assert s[n] in s && s[n - 1] in s;
    UpperDigit(s[n]);
    UpperDigit(s[n - 1]);
    assert u[n] == Upper([s[n]])[0] && u[n - 1] == Upper([s[n - 1]])[0];
    forall c | c in s[..n] ensures c in s {
    }
  }

  lemma {:induction false} UpperDigits(s: string)
    requires HexOnly(s)
    ensures Digits(Upper(s)) == Digits(s)
  {
    if |s| > 1 {
      var n := |s| - 1;
      var u := Upper(s);
      UpperEnds(s, u);
      UpperDigits(s[..n]);
      DigitsEnd(s, s[..n], s[n]);
      DigitsEnd(u, u[..n], u[n]);
    } else if |s| == 1 {
      assert s[0] in s;
      UpperDigit(s[0]);
    }
  }

  /** The eight hexadecimal digits of a node number, in either case. */
  ghost predicate Spells(digits: string, value: nat) {
    value < 0x1_0000_0000 && (digits == HexText(value, 8) || digits == Upper(HexText(value, 8)))
  }

  lemma UpperParses(text: string, digits: string)
    requires |text| == 8 && HexOnly(text) && digits == Upper(text) && Digits(digits).Some?
    ensures !White(digits[7]) && ParseHex(digits) == Some(Digits(digits).value)
  {
    assert text[0] in text && text[1] in text && text[7] in text;
    StripLeavesAlone(digits);
  }

  lemma SpelledIsRead(digits: string, value: nat)
    requires Spells(digits, value)
    ensures |digits| == 8 && !White(digits[7]) && ParseHex(digits) == Some(value)
  {
    var text := HexText(value, 8);
    Pow16Of8();
    HexTextReads(value, 8);
    if digits == text {
      assert text[7] in text;
      ParseHexOfDigits(text);
    } else {
      UpperDigits(text);
      UpperParses(text, digits);
    }
  }

  /** "!" and the digits, with or without blanks around them, name exactly that node. */
  lemma AddressIsRead(front: string, digits: string, back: string, value: nat)
    requires Blank(front) && Blank(back) && Spells(digits, value)
    ensures NodeNumber(Some(front + ("!" + digits) + back)) == Some(value)
  {
    SpelledIsRead(digits, value);
    var id := "!" + digits;
    assert id[8] == digits[7] && id[1..] == digits;
    BlanksGo(front, id, back);
  }

  // ----- Tracking

  lemma PutKeepsNew(pending: seq<Pending>, p: Pending)
    requires |pending| <= MAX_PENDING
    ensures p in Newest(Put(pending, p))
  {
    var put := Put(pending, p);
    var n := IndexOf(pending, p.packetId);
    if n < |pending| {
      assert Newest(put) == put && put[n] == p;
    } else {
      assert Newest(put)[|Newest(put)| - 1] == p;
    }
  }

  /** A watched send to that address is tracked with that node as its destination. */
  lemma SendIsTracked(s: Tracker, id: int, front: string, digits: string, back: string, value: nat)
    requires Orderly(s) && s.interface.Some? && Blank(front) && Blank(back) && Spells(digits, value)
    ensures var after := Step(s, SendText(Some(id), true, Some(front + ("!" + digits) + back)));
      Pending(id, s.nextToken, Some(value)) in after.pending && after.nextToken == s.nextToken + 1
  {
    AddressIsRead(front, digits, back, value);
    PutKeepsNew(s.pending, Pending(id, s.nextToken, Some(value)));
  }

  /** Whatever is tracked under a token is the send the token was given out for. */
  ghost predicate Means(s: Tracker, token: nat, id: int, destination: Option<int>) {
    token < s.nextToken &&
    forall i :: 0 <= i < |s.pending| && s.pending[i].token == token ==>
      s.pending[i].packetId == id && s.pending[i].destination == destination
  }

  lemma SendMeans(s: Tracker, id: int, destination: Option<string>)
    requires Orderly(s) && s.interface.Some?
    ensures Means(Step(s, SendText(Some(id), true, destination)), s.nextToken, id, NodeNumber(destination))
  {
  }

  lemma StepMeans(s: Tracker, d: Deed, token: nat, id: int, destination: Option<int>)
    requires Means(s, token, id, destination)
    ensures Means(Step(s, d), token, id, destination)
  {
  }

  lemma {:induction false} RunMeans(s: Tracker, deeds: seq<Deed>, token: nat, id: int, destination: Option<int>)
    requires Means(s, token, id, destination)
    ensures Means(Run(s, deeds), token, id, destination)
  {
    if deeds != [] {
      RunMeans(s, deeds[..|deeds| - 1], token, id, destination);
      StepMeans(Run(s, deeds[..|deeds| - 1]), deeds[|deeds| - 1], token, id, destination);
    }
  }

  lemma {:induction false} RunJoins(s: Tracker, before: seq<Deed>, after: seq<Deed>)
    ensures Run(s, before + after) == Run(Run(s, before), after)
  {
    if after == [] {
      assert before + after == before;
    } else {
      var all := before + after;
      assert all[..|all| - 1] == before + after[..|after| - 1];
      RunJoins(s, before, after[..|after| - 1]);
    }
  }

  /** The state some deeds after a watched send. */
  function Later(before: seq<Deed>, id: int, destination: Option<string>, after: seq<Deed>): Tracker {
    Run(START, before + [SendText(Some(id), true, destination)] + after)
  }

  lemma LaterMeans(before: seq<Deed>, id: int, destination: Option<string>, after: seq<Deed>)
    requires Run(START, before).interface.Some?
    ensures var s := Later(before, id, destination, after);
      Orderly(s) && Means(s, Run(START, before).nextToken, id, NodeNumber(destination))
  {
    var d := SendText(Some(id), true, destination);
    var s := Run(START, before);
    RunOrderly(before);
    RunOrderly(before + [d] + after);
    RunJoins(START, before, [d]);
    RunJoins(START, before + [d], after);
    assert [d][..0] == [];
    assert Run(s, [d]) == Step(s, d);
    SendMeans(s, id, destination);
    RunMeans(Step(s, d), after, s.nextToken, id, NodeNumber(destination));
  }

  /** A clean response to that request, on the live connection, from a node that is not this radio. */
  ghost predicate CleanFromOther(s: Tracker, from: Option<nat>, r: Response, id: int) {
    && (from.None? || from == s.interface)
    && r.Routing? && r.requestId == Some(id) && r.reason == Clean
    && r.from.Some? && s.local.Some? && r.from != s.local
  }

  lemma HeardOfPending(s: Tracker, from: Option<nat>, r: Response, token: nat, id: int, destination: Option<int>)
    requires Orderly(s) && Means(s, token, id, destination)
    ensures Reported(s, Receive(from, r)) == Some(Event(token, HEARD)) <==>
            Tracked(s, token) && CleanFromOther(s, from, r, id) && (destination.Some? ==> r.from == destination)
  {
    if RequestId(r).Some? {
      var k := IndexOf(s.pending, RequestId(r).value);
      if k < |s.pending| {
        if Tracked(s, token) {
          var n :| 0 <= n < |s.pending| && s.pending[n].token == token;
          assert s.pending[n].packetId == id;
          assert id == RequestId(r).value ==> k == n;
        }
      }
    }
  }

  /** Over every run: a watched send addressed to a node is reported HEARD, while it is tracked, for a clean response to
      it from that very node, and for nothing else. */
  lemma HeardFromDestinationExactly(before: seq<Deed>, id: int, front: string, digits: string, back: string,
                                    value: nat, after: seq<Deed>, from: Option<nat>, r: Response)
    requires Run(START, before).interface.Some? && Blank(front) && Blank(back) && Spells(digits, value)
    ensures var token := Run(START, before).nextToken;
      var s := Later(before, id, Some(front + ("!" + digits) + back), after);
      Reported(s, Receive(from, r)) == Some(Event(token, HEARD)) <==>
      Tracked(s, token) && CleanFromOther(s, from, r, id) && r.from == Some(value)
  {
    var destination := Some(front + ("!" + digits) + back);
    AddressIsRead(front, digits, back, value);
    LaterMeans(before, id, destination, after);
    HeardOfPending(Later(before, id, destination, after), from, r, Run(START, before).nextToken, id, Some(value));
  }

  /** One without a destination is reported HEARD for a clean response from any other node. */
  lemma BroadcastHeardExactly(before: seq<Deed>, id: int, after: seq<Deed>, from: Option<nat>, r: Response)
    requires Run(START, before).interface.Some?
    ensures var token, s := Run(START, before).nextToken, Later(before, id, None, after);
      Reported(s, Receive(from, r)) == Some(Event(token, HEARD)) <==>
      Tracked(s, token) && CleanFromOther(s, from, r, id)
  {
    LaterMeans(before, id, None, after);
    HeardOfPending(Later(before, id, None, after), from, r, Run(START, before).nextToken, id, None);
  }
}
