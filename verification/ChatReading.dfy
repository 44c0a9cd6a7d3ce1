/** What scrolling back through a conversation shows, and whose rows a read depends on. */
module ChatReading {
  import opened Common
  import opened Sorting
  import opened ChatRows
  import opened ChatPaging

  // ----- Scrolling back

  /** A conversation opened on its newest page, then scrolled back a page at a time. */
  datatype Reading = Opened(limit: nat) | Scrolled(sofar: Reading, limit: nat)

  predicate Positive(reading: Reading) {
    reading.limit > 0 && (reading.Scrolled? ==> Positive(reading.sofar))
  }

  function Asked(reading: Reading): nat {
    reading.limit + (if reading.Scrolled? then Asked(reading.sofar) else 0)
  }

  /** What is on screen, and what the last page said about older rows. Each page is fetched before the oldest row
      shown. */
  function OnScreen(rows: seq<Row>, ns: Namespace, q: Query, reading: Reading): HistoryPage
    requires Positive(reading)
  {
    match reading
    case Opened(limit) => Recent(rows, ns, q, limit).value
    case Scrolled(sofar, limit) =>
      var screen := OnScreen(rows, ns, q, sofar);
      if !screen.hasOlder || screen.messages == [] then screen
      else
        var page := Older(rows, ns, q, screen.messages[0].id, limit);
        if page.None? then screen
        else HistoryPage(page.value.messages + screen.messages, page.value.hasOlder)
  }

  ghost predicate Table(rows: seq<Row>) {
    DistinctIds(rows) && forall r :: r in rows ==> r.id > 0
  }

  lemma {:induction false} FindIs(rows: seq<Row>, q: Query, r: Row)
    requires DistinctIds(rows) && r in rows && IsCursor(q, r.id, r)
    ensures Find(rows, q, r.id) == Some(r)
  {
    if rows[0] != r {
      assert r in rows[1..];
      assert rows[0].id != r.id;
      FindIs(rows[1..], q, r);
    }
  }

  lemma HistoryHolds(rows: seq<Row>, ns: Namespace, q: Query)
    requires DistinctIds(rows)
    ensures Ascending(History(rows, ns, q))
    ensures forall r :: r in History(rows, ns, q) <==> r in rows && Passes(ns, q, r)
  {
    ChronicleIsTimeline(rows, Wanted(ns, q, None));
    forall r ensures r in History(rows, ns, q) <==> r in rows && Passes(ns, q, r) {
      assert r in History(rows, ns, q) <==> r in Matching(rows, Wanted(ns, q, None));
    }
  }

  lemma BeforeOwnPosition(v: seq<Row>, k: nat)
    requires Ascending(v) && k < |v|
    ensures Before(v, v[k]) == k
  {
    BeforeSplits(v, v[k]);
    assert !Earlier(v[k], v[k]);
    assert k > 0 ==> Earlier(v[k - 1], v[k]);
  }

  /** The page before a shown row is exactly the rows that precede it. */
  lemma OlderPageContinues(rows: seq<Row>, ns: Namespace, q: Query, k: nat, limit: nat)
    requires Table(rows) && limit > 0 && k < |History(rows, ns, q)|
    ensures var v := History(rows, ns, q);
      Older(rows, ns, q, v[k].id, limit) == Some(PageEndingAt(v, k, limit))
  {
    var v := History(rows, ns, q);
    HistoryHolds(rows, ns, q);
    assert v[k] in v;
    FindIs(rows, q, v[k]);
    BeforeOwnPosition(v, k);
  }

  /** A screen that lists the last `asked` rows of the history, or all of them, and says whether any are missing. */
  ghost predicate ShowsEnd(v: seq<Row>, screen: HistoryPage, asked: nat) {
    var n := Min(|v|, asked);
    screen == HistoryPage(v[|v| - n..], n < |v|)
  }

  /** However the pages are sized, the screen holds the end of the history, every row once and in order,
      and older rows are announced exactly when some are missing. */
  lemma {:induction false} ScrollingListsHistory(rows: seq<Row>, ns: Namespace, q: Query, reading: Reading)
    requires Table(rows) && Positive(reading)
    ensures ShowsEnd(History(rows, ns, q), OnScreen(rows, ns, q, reading), Asked(reading))
  {
    if reading.Opened? {
      OpenedScreen(rows, ns, q, reading.limit);
    } else {
      ScrollingListsHistory(rows, ns, q, reading.sofar);
      AskedPositive(reading.sofar);
      ScrollNext(rows, ns, q, reading, Asked(reading.sofar));
    }
  }

  lemma OpenedScreen(rows: seq<Row>, ns: Namespace, q: Query, limit: nat)
    requires limit > 0
    ensures ShowsEnd(History(rows, ns, q), OnScreen(rows, ns, q, Opened(limit)), limit)
  {
    var v := History(rows, ns, q);
    assert v[Max(0, |v| - limit)..|v|] == v[Max(0, |v| - limit)..];
  }

  lemma ScrollNext(rows: seq<Row>, ns: Namespace, q: Query, reading: Reading, asked: nat)
    requires Table(rows) && reading.Scrolled? && Positive(reading) && asked > 0
    requires ShowsEnd(History(rows, ns, q), OnScreen(rows, ns, q, reading.sofar), asked)
    ensures ShowsEnd(History(rows, ns, q), OnScreen(rows, ns, q, reading), asked + reading.limit)
  {
    var v := History(rows, ns, q);
    var k := |v| - Min(|v|, asked);
    ShowsFrom(v, OnScreen(rows, ns, q, reading.sofar), asked, k);
    ScrollStep(rows, ns, q, reading, k);
    ShowsFrom(v, OnScreen(rows, ns, q, reading), asked + reading.limit, Max(0, k - reading.limit));
  }

  lemma ShowsFrom(v: seq<Row>, screen: HistoryPage, asked: nat, k: nat)
    requires k == |v| - Min(|v|, asked)
    ensures ShowsEnd(v, screen, asked) <==> screen == HistoryPage(v[k..], k > 0)
  {
  }

  lemma ScrollStep(rows: seq<Row>, ns: Namespace, q: Query, reading: Reading, k: nat)
    requires Table(rows) && reading.Scrolled? && Positive(reading) && k <= |History(rows, ns, q)|
    requires k < |History(rows, ns, q)| || k == 0
    requires OnScreen(rows, ns, q, reading.sofar) == HistoryPage(History(rows, ns, q)[k..], k > 0)
    ensures OnScreen(rows, ns, q, reading) ==
            HistoryPage(History(rows, ns, q)[Max(0, k - reading.limit)..], k > reading.limit)
  {
    if k > 0 {
      var v, limit := History(rows, ns, q), reading.limit;
      OlderPageContinues(rows, ns, q, k, limit);
      ScrolledScreen(rows, ns, q, reading, v[k..], PageEndingAt(v, k, limit), v[k].id);
      PagesMeet(v, k, limit);
    }
  }

  lemma ScrolledScreen(rows: seq<Row>, ns: Namespace, q: Query, reading: Reading, shown: seq<Row>, page: HistoryPage,
                       id: int)
    requires reading.Scrolled? && Positive(reading)
    requires OnScreen(rows, ns, q, reading.sofar) == HistoryPage(shown, true) && shown != [] && shown[0].id == id
    requires Older(rows, ns, q, id, reading.limit) == Some(page)
    ensures OnScreen(rows, ns, q, reading) == HistoryPage(page.messages + shown, page.hasOlder)
  {
  }

  lemma PagesMeet(v: seq<Row>, k: nat, limit: nat)
    requires k <= |v|
    ensures PageEndingAt(v, k, limit).messages + v[k..] == v[Max(0, k - limit)..]
  {
  }

  lemma AskedPositive(reading: Reading)
    requires Positive(reading)
    ensures Asked(reading) > 0
  {
  }

  method ShowOlder(rows: seq<Row>, ns: Namespace, q: Query, shown: seq<Row>, step: nat)
    returns (more: bool, longer: seq<Row>)
    requires Table(rows) && step > 0 && 0 < |shown| < |History(rows, ns, q)|
    requires shown == History(rows, ns, q)[|History(rows, ns, q)| - |shown|..]
    ensures var v := History(rows, ns, q); var k := |v| - |shown|;
      longer == v[Max(0, k - step)..] && more == (k > step)
  {
    ghost var v := History(rows, ns, q);
    ghost var k := |v| - |shown|;
    assert shown[0] == v[k];
    OlderPageContinues(rows, ns, q, k, step);
    var page := LoadOlderPage(rows, ns, q, shown[0].id, step);
    assert page.value.messages + v[k..] == v[Max(0, k - step)..];
    return page.value.hasOlder, page.value.messages + shown;
  }

  /** Scrolling to the top ends, and then everything has been listed. */
  method ReadAll(rows: seq<Row>, ns: Namespace, q: Query, first: nat, step: nat) returns (shown: seq<Row>)
    requires Table(rows) && first > 0 && step > 0
    ensures shown == History(rows, ns, q)
  {
    ghost var v := History(rows, ns, q);
    var page := LoadRecentPage(rows, ns, q, first);
    shown := page.value.messages;
    var more := page.value.hasOlder;
    while more
      invariant |shown| <= |v| && shown == v[|v| - |shown|..]
      invariant more <==> |shown| < |v|
      invariant more ==> shown != []
      decreases |v| - |shown|
    {
      more, shown := ShowOlder(rows, ns, q, shown, step);
    }
  }

  /** An older page depends on the cursor row and on the visible rows before it, on nothing newer. */
  lemma OlderPageSeesOnlyOlderRows(rows: seq<Row>, rows': seq<Row>, ns: Namespace, q: Query, c: Row, limit: nat)
    requires DistinctIds(rows) && DistinctIds(rows')
    requires Find(rows, q, c.id) == Find(rows', q, c.id) == Some(c)
    requires Matching(rows, Wanted(ns, q, Some(c))) == Matching(rows', Wanted(ns, q, Some(c)))
    ensures Older(rows, ns, q, c.id, limit) == Older(rows', ns, q, c.id, limit)
  {
    var v, w := History(rows, ns, q), History(rows', ns, q);
    BeforeIsTimeline(rows, ns, q, c);
    BeforeIsTimeline(rows', ns, q, c);
    var n, m := Before(v, c), Before(w, c);
    TimelineIsUnique(v[..n], w[..m], Matching(rows, Wanted(ns, q, Some(c))));
    assert |v[..n]| == n && |w[..m]| == m;
    var from := Max(0, n - limit);
    assert v[from..n] == v[..n][from..] && w[from..n] == w[..n][from..];
  }

  lemma {:induction false} FindInLonger(rows: seq<Row>, r: Row, q: Query, id: int)
    requires Find(rows, q, id).Some?
    ensures Find(rows + [r], q, id) == Find(rows, q, id)
  {
    if !IsCursor(q, id, rows[0]) {
      FindInLonger(rows[1..], r, q, id);
      assert (rows + [r])[1..] == rows[1..] + [r];
    }
  }

  /** Messages that arrive while somebody scrolls do not shift the pages still to come. */
  lemma ArrivalsDoNotShiftOlderPages(rows: seq<Row>, arrived: Row, ns: Namespace, q: Query, c: Row, limit: nat)
    requires DistinctIds(rows + [arrived]) && Find(rows, q, c.id) == Some(c)
    requires !(Passes(ns, q, arrived) && Earlier(arrived, c))
    ensures Older(rows + [arrived], ns, q, c.id, limit) == Older(rows, ns, q, c.id, limit)
  {
    assert forall i :: 0 <= i < |rows| ==> (rows + [arrived])[i] == rows[i];
    FindInLonger(rows, arrived, q, c.id);
    OlderPageSeesOnlyOlderRows(rows, rows + [arrived], ns, q, c, limit);
  }

  // ----- Whose rows a read depends on

  function OwnedBy(key: string): Row -> bool {
    (r: Row) => r.profileKey == Some(key)
  }

  /** The rows of one profile, in table order. */
  function Mine(rows: seq<Row>, key: string): seq<Row> {
    Filter(rows, OwnedBy(key))
  }

  lemma MineMembers(rows: seq<Row>, key: string)
    ensures forall r :: r in Mine(rows, key) <==> r in rows && r.profileKey == Some(key)
  {
    FilterMembers(rows, OwnedBy(key));
    forall r ensures r in Mine(rows, key) <==> r in rows && r.profileKey == Some(key) {
      assert r in Filter(rows, OwnedBy(key)) <==> r in rows && OwnedBy(key)(r);
    }
  }

  lemma OwnHistory(rows: seq<Row>, rows': seq<Row>, key: string, q: Query)
    requires DistinctIds(rows) && DistinctIds(rows') && Mine(rows, key) == Mine(rows', key)
    ensures History(rows, Bound(Some(key)), q) == History(rows', Bound(Some(key)), q)
  {
    var keep := Wanted(Bound(Some(key)), q, None);
    ChronicleIsTimeline(rows, keep);
    ChronicleIsTimeline(rows', keep);
    MineMembers(rows, key);
    MineMembers(rows', key);
    SameOwnedMatches(rows, rows', key, keep);
    TimelineIsUnique(Chronicle(rows, keep), Chronicle(rows', keep), Matching(rows, keep));
  }

  lemma SameOwnedMatches(rows: seq<Row>, rows': seq<Row>, key: string, keep: Row -> bool)
    requires forall r :: keep(r) ==> r.profileKey == Some(key)
    requires forall r :: r in Mine(rows, key) <==> r in rows && r.profileKey == Some(key)
    requires forall r :: r in Mine(rows', key) <==> r in rows' && r.profileKey == Some(key)
    requires Mine(rows, key) == Mine(rows', key)
    ensures Matching(rows, keep) == Matching(rows', keep)
  {
    forall r | r in Matching(rows, keep) ensures r in Matching(rows', keep) {
      assert r in Mine(rows, key);
    }
    forall r | r in Matching(rows', keep) ensures r in Matching(rows, keep) {
      assert r in Mine(rows', key);
    }
  }

  lemma {:induction false} FindNothing(rows: seq<Row>, q: Query, id: int)
    requires forall r :: r in rows ==> !IsCursor(q, id, r)
    ensures Find(rows, q, id).None?
  {
    if rows != [] {
      FindNothing(rows[1..], q, id);
    }
  }

  ghost predicate OwnsId(rows: seq<Row>, key: string, id: int) {
    exists r :: r in Mine(rows, key) && r.id == id
  }

  /** When an older page of a profile is safe from other profiles' rows: it is refused, or its cursor is one of the
      profile's own row IDs (of this conversation or not), or there is nothing to show. */
  ghost predicate SafeCursor(rows: seq<Row>, key: string, q: Query, id: int, limit: int) {
    id <= 0 || limit <= 0 || OwnsId(rows, key, id) || History(rows, Bound(Some(key)), q) == []
  }

  lemma OwnCursorIsFound(rows: seq<Row>, rows': seq<Row>, key: string, q: Query, r: Row)
    requires DistinctIds(rows) && DistinctIds(rows') && r in rows && r in rows'
    ensures Find(rows, q, r.id) == Find(rows', q, r.id)
  {
    if IsCursor(q, r.id, r) {
      FindIs(rows, q, r);
      FindIs(rows', q, r);
    } else {
      OnlyRowWithId(rows, r);
      OnlyRowWithId(rows', r);
      FindNothing(rows, q, r.id);
      FindNothing(rows', q, r.id);
    }
  }

  lemma OnlyRowWithId(rows: seq<Row>, r: Row)
    requires DistinctIds(rows) && r in rows
    ensures forall x :: x in rows && x.id == r.id ==> x == r
  {
  }

  lemma SafeCursorSuffices(rows: seq<Row>, rows': seq<Row>, key: string, q: Query, id: int, limit: int)
    requires DistinctIds(rows) && DistinctIds(rows') && Mine(rows, key) == Mine(rows', key)
    requires SafeCursor(rows, key, q, id, limit)
    ensures Older(rows, Bound(Some(key)), q, id, limit) == Older(rows', Bound(Some(key)), q, id, limit)
  {
    OwnHistory(rows, rows', key, q);
    if OwnsId(rows, key, id) {
      var r :| r in Mine(rows, key) && r.id == id;
      MineMembers(rows, key);
      MineMembers(rows', key);
      assert r in Mine(rows', key);
      OwnCursorIsFound(rows, rows', key, q, r);
    }
  }

  /** Reading under one profile depends on that profile's rows alone, an older page when its cursor is safe. */
  lemma ReadsDependOnOwnRows(rows: seq<Row>, rows': seq<Row>, key: string, q: Query, id: int, limit: int)
    requires DistinctIds(rows) && DistinctIds(rows') && Mine(rows, key) == Mine(rows', key)
    ensures Recent(rows, Bound(Some(key)), q, limit) == Recent(rows', Bound(Some(key)), q, limit)
    ensures SafeCursor(rows, key, q, id, limit) ==>
            Older(rows, Bound(Some(key)), q, id, limit) == Older(rows', Bound(Some(key)), q, id, limit)
  {
    OwnHistory(rows, rows', key, q);
    if SafeCursor(rows, key, q, id, limit) {
      SafeCursorSuffices(rows, rows', key, q, id, limit);
    }
  }

  /** Somebody else's row with a given ID, in the same conversation and later than `last`. */
  function Intruder(q: Query, id: nat, last: Row): Row {
    last.(id := id, channelIndex := if q.Channel? then q.index else 0,
          dmNodeId := if q.Dm? then Some(q.node) else None,
          originSentAt := Some(SqlTime(last) + 1.0), profileKey := None)
  }

  lemma {:induction false} MineOfMine(rows: seq<Row>, key: string)
    ensures Mine(Mine(rows, key), key) == Mine(rows, key)
  {
    if rows != [] {
      MineOfMine(rows[..|rows| - 1], key);
      var front, last := Mine(rows[..|rows| - 1], key), rows[|rows| - 1];
      if OwnedBy(key)(last) {
        assert (front + [last])[..|front|] == front;
      }
    }
  }

  lemma MineAndIntruder(own: seq<Row>, key: string, x: Row)
    requires Mine(own, key) == own && x.profileKey.None?
    ensures Mine(own + [x], key) == own
  {
    assert (own + [x])[..|own|] == own;
  }

  lemma AllEarlier(v: seq<Row>, c: Row)
    requires Ascending(v) && forall i :: 0 <= i < |v| ==> Earlier(v[i], c)
    ensures Before(v, c) == |v|
  {
    BeforeSplits(v, c);
    if v != [] {
      assert Earlier(v[|v| - 1], c);
    }
  }

  lemma IntruderIsForeign(own: seq<Row>, key: string, q: Query, id: nat, last: Row)
    requires DistinctIds(own) && Mine(own, key) == own && forall r :: r in own ==> r.id != id
    ensures DistinctIds(own + [Intruder(q, id, last)]) && Mine(own + [Intruder(q, id, last)], key) == own
  {
    MineAndIntruder(own, key, Intruder(q, id, last));
  }

  lemma IntruderComesLast(v: seq<Row>, q: Query, id: nat)
    requires Ascending(v) && v != []
    ensures Before(v, Intruder(q, id, v[|v| - 1])) == |v|
  {
    var x := Intruder(q, id, v[|v| - 1]);
    forall i | 0 <= i < |v| ensures Earlier(v[i], x) {
      assert i < |v| - 1 ==> Earlier(v[i], v[|v| - 1]);
    }
    AllEarlier(v, x);
  }

  lemma IntruderIsFound(own: seq<Row>, q: Query, x: Row)
    requires DistinctIds(own + [x]) && IsCursor(q, x.id, x)
    ensures Find(own + [x], q, x.id) == Some(x)
  {
    assert x in own + [x];
    FindIs(own + [x], q, x);
  }

  /** With nothing safe about the cursor, one foreign row decides between an empty page and a full one. */
  lemma IntruderIsSeen(own: seq<Row>, key: string, q: Query, id: nat, limit: nat)
    requires DistinctIds(own) && Mine(own, key) == own && limit > 0 && id > 0
    requires (forall r :: r in own ==> r.id != id) && History(own, Bound(Some(key)), q) != []
    ensures var v := History(own, Bound(Some(key)), q); var more := own + [Intruder(q, id, v[|v| - 1])];
      DistinctIds(more) && Mine(more, key) == own &&
      Older(own, Bound(Some(key)), q, id, limit) != Older(more, Bound(Some(key)), q, id, limit)
  {
    var ns := Bound(Some(key));
    var v := History(own, ns, q);
    var x := Intruder(q, id, v[|v| - 1]);
    var more := own + [x];
    IntruderIsForeign(own, key, q, id, v[|v| - 1]);
    HistoryHolds(own, ns, q);
    IntruderComesLast(v, q, id);
    OwnHistory(own, more, key, q);
    FindNothing(own, q, id);
    IntruderIsFound(own, q, x);
  }

  /** An older page of a profile is independent of every other profile's rows exactly when its cursor is safe. */
  lemma OlderPageIsOwnExactly(rows: seq<Row>, key: string, q: Query, id: int, limit: int)
    requires DistinctIds(rows)
    ensures SafeCursor(rows, key, q, id, limit) <==>
            forall rows' :: DistinctIds(rows') && Mine(rows', key) == Mine(rows, key) ==>
              Older(rows', Bound(Some(key)), q, id, limit) == Older(rows, Bound(Some(key)), q, id, limit)
  {
    if SafeCursor(rows, key, q, id, limit) {
      forall rows' | DistinctIds(rows') && Mine(rows', key) == Mine(rows, key)
        ensures Older(rows', Bound(Some(key)), q, id, limit) == Older(rows, Bound(Some(key)), q, id, limit)
      {
        SafeCursorSuffices(rows, rows', key, q, id, limit);
      }
    } else {
      var own := Mine(rows, key);
      FilterDistinct(rows, OwnedBy(key));
      MineOfMine(rows, key);
      OwnHistory(rows, own, key, q);
      IntruderIsSeen(own, key, q, id, limit);
      var v := History(own, Bound(Some(key)), q);
      var more := own + [Intruder(q, id, v[|v| - 1])];
      assert Mine(own, key) == Mine(rows, key) == Mine(more, key);
    }
  }

  /** The cursor lookup asks no profile, so another profile's row does leak its position into the page. */
  lemma ForeignCursorIsRead()
    ensures exists rows: seq<Row>, rows': seq<Row> ::
      DistinctIds(rows) && DistinctIds(rows') && Mine(rows, "!00000001:A") == Mine(rows', "!00000001:A") &&
      Older(rows, Bound(Some("!00000001:A")), Channel(0, None), 2, 1) !=
      Older(rows', Bound(Some("!00000001:A")), Channel(0, None), 2, 1)
  {
    var own := Row(1, Outgoing, None, None, None, None, 0, "mine", None, None, 1.0, Some(1.0),
                   None, 1.0, None, None, None, Some("!00000001:A"));
    var foreign := own.(id := 2, receivedAt := 2.0, localSentAt := Some(2.0), profileKey := Some("!00000001:B"));
    var rows, rows' := [own, foreign], [own];
    var ns, q := Bound(Some("!00000001:A")), Channel(0, None);
    assert foreign.profileKey != Some("!00000001:A") by { assert foreign.profileKey.value[10] == 'B'; }
    assert rows == [own] + [foreign];
    FilterConcat([own], [foreign], OwnedBy("!00000001:A"));
    assert Filter([foreign], OwnedBy("!00000001:A")) == [];
    HistoryHolds(rows, ns, q);
    var v := History(rows, ns, q);
    assert own in v;
    BeforeSplits(v, foreign);
    var i :| 0 <= i < |v| && v[i] == own;
    assert Before(v, foreign) > 0;
    assert Find(rows, q, 2) == Some(foreign) by { assert rows[1..][0] == foreign; }
    assert Find(rows', q, 2).None? by { assert rows'[1..] == []; }
    assert Older(rows, ns, q, 2, 1).value.messages != [];
    assert Older(rows', ns, q, 2, 1) == Some(HistoryPage([], false));
  }

  /** While the profile is unresolved nothing is shown. */
  lemma UnresolvedShowsNothing(rows: seq<Row>, q: Query, limit: nat)
    requires DistinctIds(rows) && limit > 0
    ensures Recent(rows, Bound(None), q, limit) == Some(HistoryPage([], false))
  {
    HistoryHolds(rows, Bound(None), q);
    NoMembers(History(rows, Bound(None), q));
  }

  // ----- What "oldest first" means

  /** When a message is said to have happened: by its sender's clock, else by the radio's, else by this program's,
      which sent it or got it. */
  ghost predicate DatedAt(r: Row, t: real) {
    match r.originSentAt
    case Some(sent) => t == sent
    case None =>
      match r.radioRxAt
      case Some(heard) => t == heard
      case None => t == if r.localSentAt.Some? then r.localSentAt.value else r.receivedAt
  }

  /** A conversation on show goes by date, then by receipt, then by ID. */
  lemma HistoryGoesByDate(rows: seq<Row>, ns: Namespace, q: Query, i: nat, j: nat, t: real, u: real)
    requires DistinctIds(rows) && i < j < |History(rows, ns, q)|
    requires DatedAt(History(rows, ns, q)[i], t) && DatedAt(History(rows, ns, q)[j], u)
    ensures var a, b := History(rows, ns, q)[i], History(rows, ns, q)[j];
      t <= u && (t == u ==> a.receivedAt <= b.receivedAt && (a.receivedAt == b.receivedAt ==> a.id < b.id))
  {
    HistoryHolds(rows, ns, q);
    assert Earlier(History(rows, ns, q)[i], History(rows, ns, q)[j]);
  }

  // ----- What an older page is

  /** The row `id` belongs to the channel (under any identity and profile) or to the conversation. */
  ghost predicate IsRowOf(q: Query, id: int, r: Row) {
    r.id == id &&
    match q
    case Channel(index, _) => r.channelIndex == index
    case Dm(node) => r.dmNodeId == Some(node)
  }

  lemma {:induction false} FoundIsRow(rows: seq<Row>, q: Query, id: int)
    requires DistinctIds(rows)
    ensures Find(rows, q, id).None? <==> forall r :: r in rows ==> !IsRowOf(q, id, r)
    ensures Find(rows, q, id).Some? ==> Find(rows, q, id).value in rows && IsRowOf(q, id, Find(rows, q, id).value)
  {
    if rows != [] {
      FoundIsRow(rows[1..], q, id);
      assert rows == [rows[0]] + rows[1..];
      assert IsRowOf(q, id, rows[0]) <==> IsCursor(q, id, rows[0]);
      assert rows[0] in rows && forall r :: r in rows <==> r == rows[0] || r in rows[1..];
    }
  }

  /** The page holds the last `limit` of the first `n` messages, or all of them. */
  ghost predicate PageBefore(page: HistoryPage, v: seq<Row>, n: nat, limit: int) {
    n <= |v| && limit > 0 && page == HistoryPage(v[if n > limit then n - limit else 0..n], n > limit)
  }

  /** The older page of a row of the conversation ends right before that row. */
  lemma OlderPageExactly(rows: seq<Row>, ns: Namespace, q: Query, c: Row, limit: int) returns (n: nat)
    requires Table(rows) && c in rows && IsRowOf(q, c.id, c) && limit > 0
    ensures n <= |History(rows, ns, q)| && Older(rows, ns, q, c.id, limit).Some?
    ensures PageBefore(Older(rows, ns, q, c.id, limit).value, History(rows, ns, q), n, limit)
    ensures forall i :: 0 <= i < |History(rows, ns, q)| ==> (Earlier(History(rows, ns, q)[i], c) <==> i < n)
  {
    var v := History(rows, ns, q);
    FoundIsRow(rows, q, c.id);
    HistoryHolds(rows, ns, q);
    BeforeSplits(v, c);
    n := Before(v, c);
  }

  /** Asked for the page before any other row, the store shows nothing. */
  lemma OtherCursorShowsNothing(rows: seq<Row>, ns: Namespace, q: Query, id: int, limit: int)
    requires Table(rows) && id > 0 && limit > 0 && forall r :: r in rows ==> !IsRowOf(q, id, r)
    ensures Older(rows, ns, q, id, limit) == Some(HistoryPage([], false))
  {
    FoundIsRow(rows, q, id);
  }
}
