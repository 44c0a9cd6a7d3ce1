/** One stored CHAT message, and the two orders the store uses on messages: the one its SQL asks for
    and the one its Python compares by. */
module ChatRows {
  import opened Common
  import opened Sorting

  datatype Direction = Incoming | Outgoing

  datatype Row = Row(
    id: nat, direction: Direction, packetId: Option<int>, nodeId: Option<string>,
    senderName: Option<string>, senderShortName: Option<string>, channelIndex: int, text: string,
    originSentAt: Option<real>, radioRxAt: Option<real>, receivedAt: real, localSentAt: Option<real>,
    deliveryState: Option<string>, createdAt: real,
    dmNodeId: Option<string>, channelKey: Option<string>, localNodeId: Option<string>,
    profileKey: Option<string>)

  /** COALESCE(origin_sent_at, radio_rx_at, local_sent_at, received_at). */
  function SqlTime(r: Row): real {
    if r.originSentAt.Some? then r.originSentAt.value
    else if r.radioRxAt.Some? then r.radioRxAt.value
    else if r.localSentAt.Some? then r.localSentAt.value
    else r.receivedAt
  }

  /** Python truth: a missing time is false, and so is 0.0. */
  predicate Truthy(t: Option<real>) {
    t.Some? && t.value != 0.0
  }

  function MessageTime(r: Row): Option<real> {
    if r.direction.Outgoing? then r.localSentAt
    else if Truthy(r.originSentAt) then r.originSentAt
    else r.radioRxAt
  }

  /** The first member of `order_key`. */
  function OrderTime(r: Row): real {
    if Truthy(MessageTime(r)) then MessageTime(r).value else r.receivedAt
  }

  predicate KeyBefore(t: real, received: real, id: nat, t': real, received': real, id': nat) {
    t < t' || (t == t' && (received < received' || (received == received' && id < id')))
  }

  /** `a` comes first in the order every query uses. */
  predicate Earlier(a: Row, b: Row) {
    KeyBefore(SqlTime(a), a.receivedAt, a.id, SqlTime(b), b.receivedAt, b.id)
  }

  /** `a.order_key < b.order_key`. */
  predicate EarlierInPython(a: Row, b: Row) {
    KeyBefore(OrderTime(a), a.receivedAt, a.id, OrderTime(b), b.receivedAt, b.id)
  }

  /** What every row the store writes looks like. */
  predicate Written(r: Row) {
    if r.direction.Incoming? then r.localSentAt.None?
    else r.originSentAt.None? && r.radioRxAt.None? && r.localSentAt.Some?
  }

  predicate ZeroOrAbsent(t: Option<real>) {
    !Truthy(t)
  }

  /** SQL and Python date a written row alike except when the time SQL picks is 0.0 and a later candidate is not. */
  lemma ClocksAgreeExactly(r: Row)
    requires Written(r)
    ensures SqlTime(r) == OrderTime(r) <==>
            (SqlTime(r) == 0.0 ==> ZeroOrAbsent(r.radioRxAt) && r.receivedAt == 0.0)
  {
  }

  lemma ZeroTimeIsReadDifferently()
    ensures exists r :: Written(r) && SqlTime(r) == 0.0 && OrderTime(r) == 5.0
  {
    var r := Row(1, Incoming, None, Some("!00000001"), None, None, 0, "hi", None, Some(0.0), 5.0, None,
                 None, 5.0, None, None, None, None);
    assert Written(r) && SqlTime(r) == 0.0 && OrderTime(r) == 5.0;
  }

  predicate NotLater(a: Row, b: Row) {
    !Earlier(b, a)
  }

  predicate NotEarlier(a: Row, b: Row) {
    !Earlier(a, b)
  }

  lemma OrdersArePreorders()
    ensures TotalPreorder(NotLater) && TotalPreorder(NotEarlier)
  {
  }

  ghost predicate DistinctIds(rows: seq<Row>) {
    forall i, j :: 0 <= i < j < |rows| ==> rows[i].id != rows[j].id
  }

  ghost predicate Ascending(v: seq<Row>) {
    forall i, j :: 0 <= i < j < |v| ==> Earlier(v[i], v[j])
  }

  ghost function Matching(rows: seq<Row>, keep: Row -> bool): set<Row> {
    set r | r in rows && keep(r)
  }

  function Filter(rows: seq<Row>, keep: Row -> bool): seq<Row> {
    if rows == [] then []
    else
      var front := Filter(rows[..|rows| - 1], keep);
      if keep(rows[|rows| - 1]) then front + [rows[|rows| - 1]] else front
  }

  lemma {:induction false} FilterMembers(rows: seq<Row>, keep: Row -> bool)
    ensures forall r :: r in Filter(rows, keep) <==> r in rows && keep(r)
  {
    if rows != [] {
      FilterMembers(rows[..|rows| - 1], keep);
      assert rows == rows[..|rows| - 1] + [rows[|rows| - 1]];
    }
  }

  lemma {:induction false} FilterDistinct(rows: seq<Row>, keep: Row -> bool)
    requires DistinctIds(rows)
    ensures NoDup(Filter(rows, keep)) && DistinctIds(Filter(rows, keep))
  {
    if rows != [] {
      var front := rows[..|rows| - 1];
      FilterDistinct(front, keep);
      FilterMembers(front, keep);
      assert forall r :: r in Filter(front, keep) ==> r in front && r.id != rows[|rows| - 1].id;
    }
  }

  lemma {:induction false} FilterConcat(a: seq<Row>, b: seq<Row>, keep: Row -> bool)
    ensures Filter(a + b, keep) == Filter(a, keep) + Filter(b, keep)
  {
    if b == [] {
      assert a + b == a;
    } else {
      FilterConcat(a, b[..|b| - 1], keep);
      assert (a + b)[..|a + b| - 1] == a + b[..|b| - 1];
    }
  }

  /** `v` is what `from` holds, oldest first. */
  ghost predicate Timeline(v: seq<Row>, from: set<Row>) {
    Ascending(v) && forall r :: r in v <==> r in from
  }

  function Chronicle(rows: seq<Row>, keep: Row -> bool): seq<Row> {
    Sort(Filter(rows, keep), NotLater)
  }

  lemma ChronicleIsTimeline(rows: seq<Row>, keep: Row -> bool)
    requires DistinctIds(rows)
    ensures Timeline(Chronicle(rows, keep), Matching(rows, keep))
  {
    var kept := Filter(rows, keep);
    var v := Chronicle(rows, keep);
    FilterMembers(rows, keep);
    FilterDistinct(rows, keep);
    OrdersArePreorders();
    SortPermutes(kept, NotLater);
    SortSorted(kept, NotLater);
    SortNoDup(kept, NotLater);
    forall i, j | 0 <= i < j < |v| ensures Earlier(v[i], v[j]) {
      DifferentIds(kept, v[i], v[j]);
    }
  }

  lemma DifferentIds(rows: seq<Row>, a: Row, b: Row)
    requires DistinctIds(rows) && a in rows && b in rows && a != b
    ensures a.id != b.id && (Earlier(a, b) || Earlier(b, a))
  {
  }

  /** The same rows have one timeline. */
  lemma {:induction false} TimelineIsUnique(v: seq<Row>, w: seq<Row>, from: set<Row>)
    requires Timeline(v, from) && Timeline(w, from)
    ensures v == w
  {
    if v == [] {
      NoMembers(w);
    } else {
      assert v[0] in w;
      assert w[0] in v;
      assert v[0] == w[0];
      TimelineTail(v, from);
      TimelineTail(w, from);
      TimelineIsUnique(v[1..], w[1..], from - {v[0]});
    }
  }

  lemma TimelineTail(v: seq<Row>, from: set<Row>)
    requires v != [] && Timeline(v, from)
    ensures Timeline(v[1..], from - {v[0]})
  {
  }

  // ----- ORDER BY ... DESC LIMIT

  /** Any two different rows are ordered. */
  ghost predicate Apart(rows: set<Row>) {
    forall a, b :: a in rows && b in rows && a != b ==> Earlier(a, b) || Earlier(b, a)
  }

  /** The `count` newest rows of `from`, newest first. */
  ghost predicate Newest(fetched: seq<Row>, from: set<Row>, count: nat) {
    && Sorted(fetched, NotEarlier) && NoDup(fetched)
    && |fetched| <= count
    && (forall f :: f in fetched ==> f in from)
    && (forall r :: r in from && r !in fetched ==>
          |fetched| == count && forall f :: f in fetched ==> Earlier(r, f))
  }

  lemma NewestFirstIsLast(fetched: seq<Row>, v: seq<Row>, from: set<Row>, count: nat)
    requires Timeline(v, from) && Newest(fetched, from, count) && v != [] && count > 0
    ensures fetched != [] && fetched[0] == v[|v| - 1]
  {
    var last := v[|v| - 1];
    assert last in from;
    if last in fetched {
      assert NotEarlier(fetched[0], last);
      assert fetched[0] in v;
    } else {
      assert Earlier(last, fetched[0]);
      assert fetched[0] in v;
    }
  }

  lemma NewestTail(fetched: seq<Row>, from: set<Row>, count: nat)
    requires fetched != [] && Newest(fetched, from, count)
    ensures Newest(fetched[1..], from - {fetched[0]}, count - 1)
  {
    forall f | f in fetched[1..] ensures f in from - {fetched[0]} {
    }
    forall r | r in from - {fetched[0]} && r !in fetched[1..]
      ensures |fetched[1..]| == count - 1 && forall f :: f in fetched[1..] ==> Earlier(r, f)
    {
      assert r !in fetched;
    }
  }

  /** The newest rows are the end of the timeline, read backwards. */
  lemma {:induction false} NewestEndsTimeline(fetched: seq<Row>, v: seq<Row>, from: set<Row>, count: nat)
    requires Timeline(v, from) && Newest(fetched, from, count)
    ensures |fetched| == Min(count, |v|)
    ensures Reversed(fetched) == v[|v| - |fetched|..]
  {
    if v == [] {
      NoMembers(fetched);
    } else if count > 0 {
      NewestFirstIsLast(fetched, v, from, count);
      NewestTail(fetched, from, count);
      TimelineFront(v, from);
      NewestEndsTimeline(fetched[1..], v[..|v| - 1], from - {fetched[0]}, count - 1);
    }
  }

  lemma TimelineFront(v: seq<Row>, from: set<Row>)
    requires v != [] && Timeline(v, from)
    ensures Timeline(v[..|v| - 1], from - {v[|v| - 1]})
  {
    assert v == v[..|v| - 1] + [v[|v| - 1]];
    assert v[|v| - 1] !in v[..|v| - 1];
  }

  function Reversed(s: seq<Row>): seq<Row> {
    if s == [] then [] else Reversed(s[1..]) + [s[0]]
  }

  lemma InsertKeepsNewest(r: Row, fetched: seq<Row>, from: set<Row>, count: nat)
    requires Newest(fetched, from, count) && r !in from && count > 0
    requires Apart(from + {r})
    ensures var s := Insert(r, fetched, NotEarlier);
      |s| == |fetched| + 1 && Newest(if |s| > count then s[..count] else s, from + {r}, count)
  {
    var s := Insert(r, fetched, NotEarlier);
    OrdersArePreorders();
    InsertSorted(r, fetched, NotEarlier);
    InsertMembers(r, fetched);
    if |s| > count {
      assert s == s[..count] + [s[count]];
      LastOut(s, fetched, r, from, count);
    } else {
      assert forall x :: x in from ==> x in fetched;
    }
  }

  lemma InsertMembers(r: Row, fetched: seq<Row>)
    requires r !in fetched && NoDup(fetched)
    ensures var s := Insert(r, fetched, NotEarlier);
      |s| == |fetched| + 1 && NoDup(s) && forall x :: x in s <==> x == r || x in fetched
  {
    var s := Insert(r, fetched, NotEarlier);
    InsertPermutes(r, fetched, NotEarlier);
    assert |s| == |multiset(s)| == |multiset(fetched)| + 1;
    forall x ensures x in s <==> x == r || x in fetched {
      assert x in s <==> x in multiset(s);
      assert x in fetched <==> x in multiset(fetched);
    }
    NoDupMultiset(fetched);
    NoDupMultiset(s);
    forall x | x in s ensures multiset(s)[x] == 1 {
      assert multiset(s)[x] == multiset(fetched)[x] + (if x == r then 1 else 0);
    }
  }

  lemma LastOut(s: seq<Row>, fetched: seq<Row>, r: Row, from: set<Row>, count: nat)
    requires Newest(fetched, from, count) && r !in from && |s| == count + 1 && |fetched| == count
    requires Sorted(s, NotEarlier) && NoDup(s) && forall x :: x in s <==> x == r || x in fetched
    requires Apart(from + {r})
    ensures Newest(s[..count], from + {r}, count)
  {
    var out := s[count];
    assert s == s[..count] + [out];
    forall x | x in from + {r} && x !in s[..count]
      ensures forall f :: f in s[..count] ==> Earlier(x, f)
    {
      forall f | f in s[..count] ensures Earlier(x, f) {
        if x == out {
          assert NotEarlier(f, out) && f != out;
        } else {
          assert x !in s && x in from && x !in fetched;
          NotFetchedIsEarlier(s, fetched, r, from, count, x, f);
        }
      }
    }
  }

  lemma NotFetchedIsEarlier(s: seq<Row>, fetched: seq<Row>, r: Row, from: set<Row>, count: nat, x: Row, f: Row)
    requires Newest(fetched, from, count) && x in from && x !in fetched && |fetched| == count
    requires |s| == count + 1 && Sorted(s, NotEarlier) && NoDup(s) && forall y :: y in s <==> y == r || y in fetched
    requires f in s[..count]
    ensures Earlier(x, f)
  {
    if f == r {
      var out := s[count];
      assert out in fetched;
      assert Earlier(x, out) && NotEarlier(f, out);
    }
  }
}
