/** The oldest unread row, looked for in chunks of 500 IDs: by SQL within a chunk, by `order_key` across chunks. */
module ChatOldest {
  import opened Common
  import opened Sorting
  import opened ChatRows
  import opened ChatPaging

  // ----- One chunk

  const CHUNK: nat := 500

  function Unread(ns: Namespace, channel: int, ids: set<int>): Row -> bool {
    (r: Row) => r.channelIndex == channel && r.direction.Incoming? && InNamespace(ns, r) && r.id in ids
  }

  ghost predicate IsOldest(found: Option<Row>, from: set<Row>) {
    match found
    case None => from == {}
    case Some(r) => r in from && forall x :: x in from && x != r ==> Earlier(r, x)
  }

  /** ORDER BY ... ASC LIMIT 1, row by row. */
  function SqlOldest(rows: seq<Row>, keep: Row -> bool): Option<Row> {
    if rows == [] then None
    else
      var found, last := SqlOldest(rows[..|rows| - 1], keep), rows[|rows| - 1];
      if keep(last) && (found.None? || Earlier(last, found.value)) then Some(last) else found
  }

  lemma {:induction false} SqlOldestIs(rows: seq<Row>, keep: Row -> bool)
    requires DistinctIds(rows)
    ensures IsOldest(SqlOldest(rows, keep), Matching(rows, keep))
  {
    if rows != [] {
      var n := |rows| - 1;
      SqlOldestIs(rows[..n], keep);
      MatchingGrows(rows, keep, n);
      MatchingApart(rows, keep, n + 1);
      assert rows[..n + 1] == rows;
    }
  }

  method SelectOldest(rows: seq<Row>, keep: Row -> bool) returns (found: Option<Row>)
    ensures found == SqlOldest(rows, keep)
  {
    found := None;
    for i := 0 to |rows|
      invariant found == SqlOldest(rows[..i], keep)
    {
      assert rows[..i + 1][..i] == rows[..i];
      if keep(rows[i]) && (found.None? || Earlier(rows[i], found.value)) {
        found := Some(rows[i]);
      }
    }
    assert rows[..|rows|] == rows;
  }

  // ----- Chunk after chunk

  function IdSet(ids: seq<int>): set<int> {
    set id | id in ids
  }

  function Chunk(valid: seq<int>, offset: nat): seq<int>
    requires offset < |valid|
  {
    valid[offset..Min(offset + CHUNK, |valid|)]
  }

  /** SQL's oldest of one chunk. */
  function ChunkOldest(rows: seq<Row>, ns: Namespace, channel: int, valid: seq<int>, offset: nat): Option<Row>
    requires offset < |valid|
  {
    SqlOldest(rows, Unread(ns, channel, IdSet(Chunk(valid, offset))))
  }

  function Sooner(row: Option<Row>, oldest: Option<Row>): Option<Row> {
    if row.Some? && (oldest.None? || EarlierInPython(row.value, oldest.value)) then row else oldest
  }

  /** The chunks from `offset` on, each answered by SQL, compared by `order_key` with what was found before. */
  function Search(rows: seq<Row>, ns: Namespace, channel: int, valid: seq<int>, offset: nat,
                  oldest: Option<Row>): Option<Row>
    decreases |valid| - offset
  {
    if offset >= |valid| then oldest
    else Search(rows, ns, channel, valid, offset + CHUNK,
                Sooner(ChunkOldest(rows, ns, channel, valid, offset), oldest))
  }

  ghost function UnreadIn(rows: seq<Row>, ns: Namespace, channel: int, valid: seq<int>): set<Row> {
    Matching(rows, Unread(ns, channel, IdSet(valid)))
  }

  predicate StartsChunk(valid: seq<int>, offset: nat) {
    offset < |valid| && offset % CHUNK == 0
  }

  /** For Python, `found` comes no later than `row`. */
  predicate NoLater(found: Option<Row>, row: Option<Row>) {
    row.Some? ==> found.Some? && !EarlierInPython(row.value, found.value)
  }

  lemma SoonerIsNoLater(row: Option<Row>, oldest: Option<Row>, found: Option<Row>)
    requires NoLater(found, Sooner(row, oldest))
    ensures NoLater(found, row) && NoLater(found, oldest)
  {
  }

  /** The search answers with the row Python puts first among the chunks' answers. */
  lemma {:induction false} SearchTakesSoonest(rows: seq<Row>, ns: Namespace, channel: int, valid: seq<int>,
                                              offset: nat, oldest: Option<Row>)
    requires offset % CHUNK == 0
    ensures var r := Search(rows, ns, channel, valid, offset, oldest);
      && NoLater(r, oldest)
      && (forall o: nat :: offset <= o && StartsChunk(valid, o) ==>
            NoLater(r, ChunkOldest(rows, ns, channel, valid, o)))
      && (r == oldest ||
          exists o: nat :: offset <= o && StartsChunk(valid, o) && r == ChunkOldest(rows, ns, channel, valid, o))
    decreases |valid| - offset
  {
    if offset < |valid| {
      var row := ChunkOldest(rows, ns, channel, valid, offset);
      SearchTakesSoonest(rows, ns, channel, valid, offset + CHUNK, Sooner(row, oldest));
      SoonerIsNoLater(row, oldest, Search(rows, ns, channel, valid, offset + CHUNK, Sooner(row, oldest)));
      assert StartsChunk(valid, offset);
    }
  }

  // ----- Exactly when that is the oldest row

  /** SQL's oldest of some chunk comes, for Python, before SQL's oldest of all. */
  ghost predicate Overtaken(rows: seq<Row>, ns: Namespace, channel: int, valid: seq<int>) {
    exists offset: nat, m ::
      StartsChunk(valid, offset) && IsOldest(Some(m), UnreadIn(rows, ns, channel, valid)) &&
      !NoLater(Some(m), ChunkOldest(rows, ns, channel, valid, offset))
  }

  lemma ChunkHoldsOnly(rows: seq<Row>, ns: Namespace, channel: int, valid: seq<int>, offset: nat)
    requires offset < |valid|
    ensures UnreadIn(rows, ns, channel, Chunk(valid, offset)) <= UnreadIn(rows, ns, channel, valid)
  {
    assert IdSet(Chunk(valid, offset)) <= IdSet(valid);
  }

  lemma ChunkOf(valid: seq<int>, id: int) returns (offset: nat)
    requires id in valid
    ensures StartsChunk(valid, offset) && id in IdSet(Chunk(valid, offset))
  {
    var i :| 0 <= i < |valid| && valid[i] == id;
    offset := i - i % CHUNK;
    assert Chunk(valid, offset)[i - offset] == id;
  }

  lemma OneOldest(a: Option<Row>, m: Row, from: set<Row>)
    requires IsOldest(a, from) && IsOldest(Some(m), from)
    ensures a == Some(m)
  {
  }

  /** SQL's oldest of all is the answer of its own chunk. */
  lemma OldestWinsItsChunk(rows: seq<Row>, ns: Namespace, channel: int, valid: seq<int>, m: Row) returns (offset: nat)
    requires DistinctIds(rows) && IsOldest(Some(m), UnreadIn(rows, ns, channel, valid))
    ensures StartsChunk(valid, offset) && ChunkOldest(rows, ns, channel, valid, offset) == Some(m)
  {
    offset := ChunkOf(valid, m.id);
    ChunkHoldsOnly(rows, ns, channel, valid, offset);
    SqlOldestIs(rows, Unread(ns, channel, IdSet(Chunk(valid, offset))));
    OneOldest(ChunkOldest(rows, ns, channel, valid, offset), m, UnreadIn(rows, ns, channel, Chunk(valid, offset)));
  }

  lemma NothingUnread(rows: seq<Row>, ns: Namespace, channel: int, valid: seq<int>)
    requires DistinctIds(rows) && UnreadIn(rows, ns, channel, valid) == {}
    ensures Search(rows, ns, channel, valid, 0, None) == None && !Overtaken(rows, ns, channel, valid)
  {
    SearchTakesSoonest(rows, ns, channel, valid, 0, None);
    forall o: nat | StartsChunk(valid, o) ensures ChunkOldest(rows, ns, channel, valid, o) == None {
      ChunkHoldsOnly(rows, ns, channel, valid, o);
      SqlOldestIs(rows, Unread(ns, channel, IdSet(Chunk(valid, o))));
    }
  }

  lemma SomethingUnread(rows: seq<Row>, ns: Namespace, channel: int, valid: seq<int>, m: Row)
    requires DistinctIds(rows) && IsOldest(Some(m), UnreadIn(rows, ns, channel, valid))
    ensures Search(rows, ns, channel, valid, 0, None) == Some(m) <==> !Overtaken(rows, ns, channel, valid)
  {
    var r := Search(rows, ns, channel, valid, 0, None);
    SearchTakesSoonest(rows, ns, channel, valid, 0, None);
    var own := OldestWinsItsChunk(rows, ns, channel, valid, m);
    assert NoLater(r, Some(m));
    if Overtaken(rows, ns, channel, valid) {
      var offset: nat, m' :| StartsChunk(valid, offset) && IsOldest(Some(m'), UnreadIn(rows, ns, channel, valid)) &&
                             !NoLater(Some(m'), ChunkOldest(rows, ns, channel, valid, offset));
      OneOldest(Some(m'), m, UnreadIn(rows, ns, channel, valid));
    } else {
      var o: nat :| StartsChunk(valid, o) && r == ChunkOldest(rows, ns, channel, valid, o);
      assert NoLater(Some(m), r);
      ChunkHoldsOnly(rows, ns, channel, valid, o);
      SqlOldestIs(rows, Unread(ns, channel, IdSet(Chunk(valid, o))));
      TiedIsSame(rows, r.value, m);
    }
  }

  /** `order_key` ends in the row's ID, so no two rows tie. */
  lemma TiedIsSame(rows: seq<Row>, a: Row, b: Row)
    requires DistinctIds(rows) && a in rows && b in rows && !EarlierInPython(a, b) && !EarlierInPython(b, a)
    ensures a == b
  {
  }

  /** The search finds the oldest unread row exactly when no chunk's answer overtakes it. */
  lemma SearchFindsOldestExactly(rows: seq<Row>, ns: Namespace, channel: int, valid: seq<int>)
    requires DistinctIds(rows)
    ensures IsOldest(Search(rows, ns, channel, valid, 0, None), UnreadIn(rows, ns, channel, valid))
       <==> !Overtaken(rows, ns, channel, valid)
  {
    SqlOldestIs(rows, Unread(ns, channel, IdSet(valid)));
    match SqlOldest(rows, Unread(ns, channel, IdSet(valid))) {
      case None => NothingUnread(rows, ns, channel, valid);
      case Some(m) =>
        SomethingUnread(rows, ns, channel, valid, m);
        if IsOldest(Search(rows, ns, channel, valid, 0, None), UnreadIn(rows, ns, channel, valid)) {
          OneOldest(Search(rows, ns, channel, valid, 0, None), m, UnreadIn(rows, ns, channel, valid));
        }
    }
  }

  /** The row `order_key` puts first. */
  ghost predicate IsSoonest(p: Row, from: set<Row>) {
    p in from && forall x :: x in from && x != p ==> EarlierInPython(p, x)
  }

  /** For the order by `order_key` as exactly: the search finds the first row exactly when that row is SQL's answer for
      its chunk. */
  lemma SearchFindsSoonestExactly(rows: seq<Row>, ns: Namespace, channel: int, valid: seq<int>, p: Row)
    requires DistinctIds(rows) && IsSoonest(p, UnreadIn(rows, ns, channel, valid))
    ensures Search(rows, ns, channel, valid, 0, None) == Some(p)
       <==> exists offset: nat :: StartsChunk(valid, offset) && ChunkOldest(rows, ns, channel, valid, offset) == Some(p)
  {
    var r := Search(rows, ns, channel, valid, 0, None);
    SearchTakesSoonest(rows, ns, channel, valid, 0, None);
    if own: nat :| StartsChunk(valid, own) && ChunkOldest(rows, ns, channel, valid, own) == Some(p) {
      assert NoLater(r, Some(p));
      var o: nat :| StartsChunk(valid, o) && r == ChunkOldest(rows, ns, channel, valid, o);
      SqlOldestIs(rows, Unread(ns, channel, IdSet(Chunk(valid, o))));
      ChunkHoldsOnly(rows, ns, channel, valid, o);
    }
  }

  /** Python orders these rows as SQL does. */
  ghost predicate OrdersAgree(rows: set<Row>) {
    forall a, b :: a in rows && b in rows ==> (EarlierInPython(a, b) <==> Earlier(a, b))
  }

  lemma ClocksAgreeOrdersAgree(rows: set<Row>)
    requires forall r :: r in rows ==> SqlTime(r) == OrderTime(r)
    ensures OrdersAgree(rows)
  {
  }

  /** One chunk cannot overtake itself, and none overtakes where Python orders the rows as SQL does. */
  lemma SeldomOvertaken(rows: seq<Row>, ns: Namespace, channel: int, valid: seq<int>)
    requires DistinctIds(rows) && (|valid| <= CHUNK || OrdersAgree(UnreadIn(rows, ns, channel, valid)))
    ensures !Overtaken(rows, ns, channel, valid)
  {
    forall offset: nat, m |
      StartsChunk(valid, offset) && IsOldest(Some(m), UnreadIn(rows, ns, channel, valid))
      ensures NoLater(Some(m), ChunkOldest(rows, ns, channel, valid, offset))
    {
      SqlOldestIs(rows, Unread(ns, channel, IdSet(Chunk(valid, offset))));
      ChunkHoldsOnly(rows, ns, channel, valid, offset);
      if |valid| <= CHUNK {
        assert Chunk(valid, offset) == valid;
        OneOldest(ChunkOldest(rows, ns, channel, valid, offset), m, UnreadIn(rows, ns, channel, valid));
      }
    }
  }

  // ----- The search itself

  function AtMost(): (int, int) -> bool {
    (a, b) => a <= b
  }

  function Positive(ids: seq<int>): seq<int> {
    if ids == [] then []
    else Positive(ids[..|ids| - 1]) + (if ids[|ids| - 1] > 0 then [ids[|ids| - 1]] else [])
  }

  /** The positive IDs in ascending order. */
  function ValidIds(ids: seq<int>): seq<int> {
    Sort(Positive(ids), AtMost())
  }

  lemma {:induction false} PositiveExact(ids: seq<int>)
    ensures forall id :: id in Positive(ids) <==> id in ids && id > 0
    ensures NoDup(ids) ==> NoDup(Positive(ids))
  {
    if ids != [] {
      var n := |ids| - 1;
      assert ids == ids[..n] + [ids[n]];
      PositiveExact(ids[..n]);
      if NoDup(ids) && ids[n] > 0 {
        assert ids[n] !in ids[..n];
        NoDupSnoc(Positive(ids[..n]), ids[n]);
      }
    }
  }

  /** The IDs the search is for. */
  function PositiveIds(ids: seq<int>): set<int> {
    set id | id in ids && id > 0
  }

  lemma {:induction false} NoDupSize(s: seq<int>)
    requires NoDup(s)
    ensures |IdSet(s)| == |s|
  {
    if s != [] {
      NoDupSplit(s);
      NoDupSize(s[1..]);
      assert s == [s[0]] + s[1..];
      assert IdSet(s) == {s[0]} + IdSet(s[1..]);
    }
  }

  /** The list that is cut into chunks: exactly the positive IDs, in ascending order, each once when no ID is given
      twice. */
  lemma ValidIdsExact(ids: seq<int>)
    ensures Sorted(ValidIds(ids), AtMost()) && IdSet(ValidIds(ids)) == PositiveIds(ids)
    ensures NoDup(ids) ==> |ValidIds(ids)| == |PositiveIds(ids)|
  {
    PositiveExact(ids);
    SortPermutes(Positive(ids), AtMost());
    SortSorted(Positive(ids), AtMost());
    forall id ensures id in IdSet(ValidIds(ids)) <==> id in PositiveIds(ids) {
    }
    if NoDup(ids) {
      SortNoDup(Positive(ids), AtMost());
      NoDupSize(ValidIds(ids));
    }
  }

  /** A row the search is for: received in that channel, of the profile on show, with one of the IDs. */
  ghost predicate IsUnread(r: Row, ns: Namespace, channel: int, ids: seq<int>) {
    && r.direction == Incoming && r.channelIndex == channel && r.id in ids && r.id > 0
    && (ns == Unbound || (ns.key != None && r.profileKey == ns.key))
  }

  ghost predicate AnswersFrom(found: Option<Row>, rows: seq<Row>, ns: Namespace, channel: int, ids: seq<int>) {
    if found.Some? then found.value in rows && IsUnread(found.value, ns, channel, ids)
    else forall r :: r in rows ==> !IsUnread(r, ns, channel, ids)
  }

  lemma UnreadExactly(rows: seq<Row>, ns: Namespace, channel: int, ids: seq<int>, r: Row)
    ensures r in UnreadIn(rows, ns, channel, ValidIds(ids)) <==> r in rows && IsUnread(r, ns, channel, ids)
  {
    ValidIdsExact(ids);
    assert r.id in PositiveIds(ids) <==> r.id in ids && r.id > 0;
  }

  /** The answer is such a row, and there is one whenever such a row exists. */
  lemma SearchAnswers(rows: seq<Row>, ns: Namespace, channel: int, ids: seq<int>)
    requires DistinctIds(rows)
    ensures AnswersFrom(Search(rows, ns, channel, ValidIds(ids), 0, None), rows, ns, channel, ids)
  {
    var valid := ValidIds(ids);
    var found := Search(rows, ns, channel, valid, 0, None);
    SearchTakesSoonest(rows, ns, channel, valid, 0, None);
    if found.Some? {
      var o: nat :| StartsChunk(valid, o) && found == ChunkOldest(rows, ns, channel, valid, o);
      SqlOldestIs(rows, Unread(ns, channel, IdSet(Chunk(valid, o))));
      ChunkHoldsOnly(rows, ns, channel, valid, o);
      UnreadExactly(rows, ns, channel, ids, found.value);
    } else {
      forall r | r in rows ensures !IsUnread(r, ns, channel, ids) {
        UnreadExactly(rows, ns, channel, ids, r);
        if r in UnreadIn(rows, ns, channel, valid) {
          SomeChunkAnswers(rows, ns, channel, valid, r);
        }
      }
    }
  }

  lemma SomeChunkAnswers(rows: seq<Row>, ns: Namespace, channel: int, valid: seq<int>, r: Row)
    requires DistinctIds(rows) && r in UnreadIn(rows, ns, channel, valid)
    ensures exists o: nat :: StartsChunk(valid, o) && ChunkOldest(rows, ns, channel, valid, o).Some?
  {
    var o := ChunkOf(valid, r.id);
    var keep := Unread(ns, channel, IdSet(Chunk(valid, o)));
    SqlOldestIs(rows, keep);
    assert r in Matching(rows, keep);
  }

  /** The IDs in any order. The answer is the oldest row among those with a positive ID of the list exactly when no
      chunk overtakes it: certainly with at most 500 such IDs, or with rows that Python orders as SQL does. */
  method LoadOldestIncoming(rows: seq<Row>, ns: Namespace, channel: int, ids: seq<int>) returns (oldest: Option<Row>)
    requires DistinctIds(rows)
    ensures IsOldest(oldest, Matching(rows, Unread(ns, channel, PositiveIds(ids))))
       <==> !Overtaken(rows, ns, channel, ValidIds(ids))
    ensures |ValidIds(ids)| <= 500 || OrdersAgree(Matching(rows, Unread(ns, channel, PositiveIds(ids)))) ==>
            IsOldest(oldest, Matching(rows, Unread(ns, channel, PositiveIds(ids))))
    ensures AnswersFrom(oldest, rows, ns, channel, ids)
    ensures NoDup(ids) ==> |ValidIds(ids)| == |PositiveIds(ids)|
  {
    var picked: seq<int> := [];
    for i := 0 to |ids|
      invariant picked == Positive(ids[..i])
    {
      assert ids[..i + 1][..i] == ids[..i];
      if ids[i] > 0 {
        picked := picked + [ids[i]];
      }
    }
    assert ids[..|ids|] == ids;
    var valid := Sort(picked, AtMost());
    oldest := None;
    var offset := 0;
    while offset < |valid|
      invariant Search(rows, ns, channel, valid, 0, None) == Search(rows, ns, channel, valid, offset, oldest)
      decreases |valid| - offset
    {
      var row := SelectOldest(rows, Unread(ns, channel, IdSet(Chunk(valid, offset))));
      if row.Some? {
        if oldest.None? || EarlierInPython(row.value, oldest.value) {
          oldest := row;
        }
      }
      offset := offset + CHUNK;
    }
    ValidIdsExact(ids);
    SearchAnswers(rows, ns, channel, ids);
    SearchFindsOldestExactly(rows, ns, channel, valid);
    if |valid| <= CHUNK || OrdersAgree(UnreadIn(rows, ns, channel, valid)) {
      SeldomOvertaken(rows, ns, channel, valid);
    }
  }

  // A search over 501 IDs that answers with a row oldest by neither order.

  function Heard(id: nat, rx: real, received: real): Row {
    Row(id, Incoming, None, Some("!00000001"), None, None, 0, "hi", None, Some(rx), received, None,
        None, received, None, None, None, None)
  }

  function UpTo(n: nat): seq<int> {
    seq(n, i => i + 1)
  }

  lemma UpToChunks()
    ensures |UpTo(501)| == 501 && UpTo(501)[0] == 1 && UpTo(501)[1] == 2 && UpTo(501)[500] == 501
    ensures 1 in IdSet(UpTo(501)[0..500]) && 2 in IdSet(UpTo(501)[0..500]) && 501 !in IdSet(UpTo(501)[0..500])
    ensures UpTo(501)[500..501] == [501]
    ensures 1 in IdSet(UpTo(501)) && 2 in IdSet(UpTo(501))
  {
    var v := UpTo(501);
    assert v[0..500][0] == 1 && v[0..500][1] == 2;
    assert v[0] in v && v[1] in v;
  }

  lemma SqlOldestOfTwo(a: Row, b: Row, keep: Row -> bool)
    ensures keep(a) && Earlier(a, b) ==> SqlOldest([a, b], keep) == Some(a)
    ensures !keep(a) && !keep(b) ==> SqlOldest([a, b], keep) == None
  {
    assert [a, b][..1] == [a] && [a][..0] == [];
    assert SqlOldest([], keep) == None;
    assert SqlOldest([a], keep) == if keep(a) then Some(a) else None;
  }

  lemma SqlOldestOfThree(a: Row, b: Row, c: Row, keep: Row -> bool)
    ensures SqlOldest([a, b, c], keep) ==
            if keep(c) && (SqlOldest([a, b], keep).None? || Earlier(c, SqlOldest([a, b], keep).value)) then Some(c)
            else SqlOldest([a, b], keep)
  {
    assert [a, b, c][..2] == [a, b];
  }

  /** A row that is the oldest neither for SQL nor for Python. */
  ghost predicate OldestForNeither(rows: set<Row>, found: Row) {
    (exists a :: a in rows && Earlier(a, found)) && (exists c :: c in rows && EarlierInPython(c, found))
  }

  lemma MissedSearch(a: Row, c: Row, b: Row, valid: seq<int>)
    requires a == Heard(1, 0.0, 5.0) && c == Heard(2, 2.0, 2.0) && b == Heard(501, 3.0, 3.0)
    requires valid == UpTo(501)
    ensures Search([a, c, b], Unbound, 0, valid, 0, None) == Some(b)
  {
    var rows := [a, c, b];
    UpToChunks();
    var first, second := Unread(Unbound, 0, IdSet(valid[0..500])), Unread(Unbound, 0, IdSet(valid[500..501]));
    SqlOldestOfTwo(a, c, first);
    SqlOldestOfThree(a, c, b, first);
    SqlOldestOfTwo(a, c, second);
    SqlOldestOfThree(a, c, b, second);
    assert Search(rows, Unbound, 0, valid, 1000, Some(b)) == Some(b);
    assert Search(rows, Unbound, 0, valid, 500, Some(a)) == Some(b);
  }

  /** Rows 1 (radio time zero, received at 5), 2 (at 2) and 501 (at 3): the search answers 501, although row 1 is the
      oldest for SQL and row 2 is older for Python. */
  lemma ChunkedSearchCanMiss()
    ensures exists rows, valid: seq<int> ::
      DistinctIds(rows) && (forall r :: r in rows ==> Written(r)) && Sorted(valid, AtMost()) && |valid| == 501 &&
      Search(rows, Unbound, 0, valid, 0, None).Some? &&
      OldestForNeither(UnreadIn(rows, Unbound, 0, valid), Search(rows, Unbound, 0, valid, 0, None).value)
  {
    var a, c, b := Heard(1, 0.0, 5.0), Heard(2, 2.0, 2.0), Heard(501, 3.0, 3.0);
    var rows, valid := [a, c, b], UpTo(501);
    UpToChunks();
    MissedSearch(a, c, b, valid);
    assert a in UnreadIn(rows, Unbound, 0, valid) && c in UnreadIn(rows, Unbound, 0, valid);
    assert Earlier(a, b) && EarlierInPython(c, b);
  }
}
