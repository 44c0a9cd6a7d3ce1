/** The four bounded history loaders: the newest page, and the page older than a row already shown,
    of one channel or of one direct-message conversation. */
module ChatPaging {
  import opened Common
  import opened Sorting
  import opened ChatRows

  /** A store nobody bound filters nothing; a bound one shows one profile, or nothing when that is unresolved. */
  datatype Namespace = Unbound | Bound(key: Option<string>)

  datatype Query = Channel(index: int, key: Option<string>) | Dm(node: string)

  datatype HistoryPage = HistoryPage(messages: seq<Row>, hasOlder: bool)

  /** `profile_key = ?`, where a NULL parameter matches nothing. */
  predicate InNamespace(ns: Namespace, r: Row) {
    ns.Unbound? || (ns.key.Some? && r.profileKey == ns.key)
  }

  predicate Selects(q: Query, r: Row) {
    match q
    case Channel(index, key) =>
      r.channelIndex == index && r.dmNodeId.None? && (key.None? || r.channelKey == key || r.channelKey.None?)
    case Dm(node) => r.dmNodeId == Some(node)
  }

  predicate Passes(ns: Namespace, q: Query, r: Row) {
    InNamespace(ns, r) && Selects(q, r)
  }

  /** The cursor row is looked up by ID and conversation only: neither profile nor channel key is asked. */
  predicate IsCursor(q: Query, id: int, r: Row) {
    r.id == id && (if q.Channel? then r.channelIndex == q.index else r.dmNodeId == Some(q.node))
  }

  /** The WHERE clause; `cursor` is the row the page must end before. */
  function Wanted(ns: Namespace, q: Query, cursor: Option<Row>): Row -> bool {
    r => Passes(ns, q, r) && (cursor.None? || Earlier(r, cursor.value))
  }

  /** Everything the conversation shows, oldest first. */
  function History(rows: seq<Row>, ns: Namespace, q: Query): seq<Row> {
    Chronicle(rows, Wanted(ns, q, None))
  }

  /** How many rows of a timeline come before `c`. */
  function Before(v: seq<Row>, c: Row): (n: nat)
    ensures n <= |v|
  {
    if v == [] || !Earlier(v[0], c) then 0 else 1 + Before(v[1..], c)
  }

  /** The `limit` rows that end at position `end`. */
  function PageEndingAt(v: seq<Row>, end: nat, limit: nat): HistoryPage
    requires end <= |v|
  {
    HistoryPage(v[Max(0, end - limit)..end], end > limit)
  }

  function Find(rows: seq<Row>, q: Query, id: int): Option<Row> {
    if rows == [] then None
    else if IsCursor(q, id, rows[0]) then Some(rows[0])
    else Find(rows[1..], q, id)
  }

  function Recent(rows: seq<Row>, ns: Namespace, q: Query, limit: int): Option<HistoryPage> {
    if limit <= 0 then None
    else var v := History(rows, ns, q); Some(PageEndingAt(v, |v|, limit))
  }

  function Older(rows: seq<Row>, ns: Namespace, q: Query, id: int, limit: int): Option<HistoryPage> {
    if id <= 0 || limit <= 0 then None
    else
      var c := Find(rows, q, id);
      if c.None? then Some(HistoryPage([], false))
      else var v := History(rows, ns, q); Some(PageEndingAt(v, Before(v, c.value), limit))
  }

  // ----- The loaders

  method SelectNewest(rows: seq<Row>, keep: Row -> bool, count: nat) returns (fetched: seq<Row>)
    requires DistinctIds(rows) && count > 0
    ensures Newest(fetched, Matching(rows, keep), count)
  {
    fetched := [];
    for i := 0 to |rows|
      invariant Newest(fetched, Matching(rows[..i], keep), count)
    {
      var r := rows[i];
      MatchingGrows(rows, keep, i);
      if keep(r) {
        MatchingApart(rows, keep, i + 1);
        InsertKeepsNewest(r, fetched, Matching(rows[..i], keep), count);
        fetched := Insert(r, fetched, NotEarlier);
        if |fetched| > count {
          fetched := fetched[..count];
        }
      }
    }
    assert rows[..|rows|] == rows;
  }

  lemma MatchingGrows(rows: seq<Row>, keep: Row -> bool, i: nat)
    requires DistinctIds(rows) && i < |rows|
    ensures rows[i] !in Matching(rows[..i], keep)
    ensures Matching(rows[..i + 1], keep) ==
            Matching(rows[..i], keep) + (if keep(rows[i]) then {rows[i]} else {})
  {
    assert rows[..i + 1] == rows[..i] + [rows[i]];
  }

  lemma MatchingApart(rows: seq<Row>, keep: Row -> bool, i: nat)
    requires DistinctIds(rows) && i <= |rows|
    ensures Apart(Matching(rows[..i], keep))
  {
    forall a, b | a in Matching(rows[..i], keep) && b in Matching(rows[..i], keep) && a != b
      ensures Earlier(a, b) || Earlier(b, a)
    {
      DifferentIds(rows, a, b);
    }
  }

  /** Rows fetched newest first, shown oldest first. */
  method InReadingOrder(fetched: seq<Row>) returns (shown: seq<Row>)
    ensures shown == Reversed(fetched)
  {
    shown := [];
    for i := 0 to |fetched|
      invariant shown == Reversed(fetched[..i])
    {
      shown := [fetched[i]] + shown;
      assert fetched[..i + 1] == fetched[..i] + [fetched[i]];
      ReversedSnoc(fetched[..i], fetched[i]);
    }
    assert fetched[..|fetched|] == fetched;
  }

  lemma {:induction false} ReversedSnoc(s: seq<Row>, x: Row)
    ensures Reversed(s + [x]) == [x] + Reversed(s)
  {
    if s == [] {
      assert [x] + Reversed(s) == [x];
    } else {
      ReversedSnoc(s[1..], x);
      assert (s + [x])[1..] == s[1..] + [x];
    }
  }

  method LoadRecentPage(rows: seq<Row>, ns: Namespace, q: Query, limit: int) returns (page: Option<HistoryPage>)
    requires DistinctIds(rows)
    ensures page == Recent(rows, ns, q, limit)
  {
    if limit <= 0 {
      return None;
    }
    var fetched := SelectNewest(rows, Wanted(ns, q, None), limit + 1);
    var ascending := InReadingOrder(fetched);
    var hasOlder := |ascending| > limit;
    var selected := ascending[Max(0, |ascending| - limit)..];
    page := Some(HistoryPage(selected, hasOlder));
    ChronicleIsTimeline(rows, Wanted(ns, q, None));
    var v := History(rows, ns, q);
    NewestEndsTimeline(fetched, v, Matching(rows, Wanted(ns, q, None)), limit + 1);
    assert ascending == v[|v| - |ascending|..] by { ReversedPrefix(fetched, 0); }
    assert selected == v[Max(0, |v| - limit)..|v|];
  }

  lemma {:induction false} ReversedPrefix(s: seq<Row>, n: nat)
    requires n <= |s|
    ensures |Reversed(s)| == |s| && Reversed(s[..n]) == Reversed(s)[|s| - n..]
  {
    if s != [] {
      ReversedPrefix(s[1..], if n == 0 then 0 else n - 1);
      if n > 0 {
        assert s[..n][1..] == s[1..][..n - 1];
        assert Reversed(s)[|s| - n..] == Reversed(s[1..])[|s| - n..] + [s[0]];
      }
    }
  }

  method LoadOlderPage(rows: seq<Row>, ns: Namespace, q: Query, id: int, limit: int) returns (page: Option<HistoryPage>)
    requires DistinctIds(rows)
    ensures page == Older(rows, ns, q, id, limit)
  {
    if id <= 0 || limit <= 0 {
      return None;
    }
    var cursor := FindCursor(rows, q, id);
    if cursor.None? {
      return Some(HistoryPage([], false));
    }
    var fetched := SelectNewest(rows, Wanted(ns, q, cursor), limit + 1);
    var hasOlder := |fetched| > limit;
    var selected := InReadingOrder(fetched[..Min(limit, |fetched|)]);
    OlderPageIs(rows, ns, q, cursor.value, fetched, limit);
    page := Some(HistoryPage(selected, hasOlder));
  }

  lemma OlderPageIs(rows: seq<Row>, ns: Namespace, q: Query, c: Row, fetched: seq<Row>, limit: nat)
    requires DistinctIds(rows) && limit > 0 && Newest(fetched, Matching(rows, Wanted(ns, q, Some(c))), limit + 1)
    ensures var v := History(rows, ns, q);
      HistoryPage(Reversed(fetched[..Min(limit, |fetched|)]), |fetched| > limit) == PageEndingAt(v, Before(v, c), limit)
  {
    FetchedBeforeCursor(rows, ns, q, c, fetched, limit + 1);
    ReversedPrefix(fetched, Min(limit, |fetched|));
  }

  method FindCursor(rows: seq<Row>, q: Query, id: int) returns (cursor: Option<Row>)
    ensures cursor == Find(rows, q, id)
  {
    for i := 0 to |rows|
      invariant Find(rows, q, id) == Find(rows[i..], q, id)
    {
      if IsCursor(q, id, rows[i]) {
        return Some(rows[i]);
      }
    }
    return None;
  }

  lemma {:induction false} BeforeSplits(v: seq<Row>, c: Row)
    requires Ascending(v)
    ensures forall i :: 0 <= i < |v| ==> (Earlier(v[i], c) <==> i < Before(v, c))
  {
    if v != [] && Earlier(v[0], c) {
      BeforeSplits(v[1..], c);
      forall i | 0 <= i < |v| ensures Earlier(v[i], c) <==> i < Before(v, c) {
        if i > 0 {
          assert v[i] == v[1..][i - 1];
        }
      }
    }
  }

  lemma BeforeIsTimeline(rows: seq<Row>, ns: Namespace, q: Query, c: Row)
    requires DistinctIds(rows)
    ensures var v := History(rows, ns, q);
      Ascending(v) && Timeline(v[..Before(v, c)], Matching(rows, Wanted(ns, q, Some(c))))
  {
    var v := History(rows, ns, q);
    ChronicleIsTimeline(rows, Wanted(ns, q, None));
    BeforeSplits(v, c);
    forall r | r in v && Earlier(r, c) ensures r in v[..Before(v, c)] {
      var i :| 0 <= i < |v| && v[i] == r;
      assert v[..Before(v, c)][i] == r;
    }
    forall r | r in v[..Before(v, c)] ensures r in v && Earlier(r, c) {
      var i :| 0 <= i < Before(v, c) && v[i] == r;
    }
    SameButForCursor(rows, ns, q, c, v);
  }

  lemma SameButForCursor(rows: seq<Row>, ns: Namespace, q: Query, c: Row, v: seq<Row>)
    requires forall r :: r in v <==> r in Matching(rows, Wanted(ns, q, None))
    ensures forall r :: r in Matching(rows, Wanted(ns, q, Some(c))) <==> r in v && Earlier(r, c)
  {
    forall r ensures r in Matching(rows, Wanted(ns, q, Some(c))) <==> r in v && Earlier(r, c) {
      assert r in v <==> r in Matching(rows, Wanted(ns, q, None));
    }
  }

  lemma FetchedBeforeCursor(rows: seq<Row>, ns: Namespace, q: Query, c: Row, fetched: seq<Row>, count: nat)
    requires DistinctIds(rows) && Newest(fetched, Matching(rows, Wanted(ns, q, Some(c))), count)
    ensures var v := History(rows, ns, q);
      |fetched| == Min(count, Before(v, c)) && Reversed(fetched) == v[Before(v, c) - |fetched|..Before(v, c)]
  {
    var v := History(rows, ns, q);
    BeforeIsTimeline(rows, ns, q, c);
    NewestEndsTimeline(fetched, v[..Before(v, c)], Matching(rows, Wanted(ns, q, Some(c))), count);
    var n := Before(v, c);
    assert v[..n][n - |fetched|..] == v[n - |fetched|..n];
  }
}
