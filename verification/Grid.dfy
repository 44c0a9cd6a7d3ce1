/** Cells, square rings around a cell, and the nearest-first search that every placement in
    mesh_topology.py falls back to. */
module Grid {
  import opened Common
  import opened Sorting

  /** A pair of coordinates: (x, y) on the logical board and in pixels, (row, column) on the fixed grid. */
  datatype Cell = Cell(a: int, b: int)

  function Plus(c: Cell, d: Cell): Cell {
    Cell(c.a + d.a, c.b + d.b)
  }

  function Minus(c: Cell, d: Cell): Cell {
    Cell(c.a - d.a, c.b - d.b)
  }

  /** Chebyshev length: the number of the square ring a displacement lies on. */
  function Norm(d: Cell): nat {
    Max(Abs(d.a), Abs(d.b))
  }

  function Distance(c: Cell, d: Cell): nat {
    Norm(Minus(d, c))
  }

  // ----- One square ring

  function TopSide(radius: int): seq<Cell>
    requires radius >= 1
  {
    seq(2 * radius + 1, i => Cell(i - radius, -radius))
  }

  function RightSide(radius: int): seq<Cell>
    requires radius >= 1
  {
    seq(2 * radius, i => Cell(radius, i - radius + 1))
  }

  function BottomSide(radius: int): seq<Cell>
    requires radius >= 1
  {
    seq(2 * radius, i => Cell(radius - 1 - i, radius))
  }

  function LeftSide(radius: int): seq<Cell>
    requires radius >= 1
  {
    seq(2 * radius - 1, i => Cell(-radius, radius - 1 - i))
  }

  function Perimeter(radius: int): seq<Cell>
    requires radius >= 1
  {
    TopSide(radius) + RightSide(radius) + BottomSide(radius) + LeftSide(radius)
  }

  function Cardinals(radius: int): seq<Cell> {
    [Cell(0, -radius), Cell(radius, 0), Cell(0, radius), Cell(-radius, 0)]
  }

  function Without(s: seq<Cell>, drop: seq<Cell>): seq<Cell> {
    if s == [] then []
    else (if s[0] in drop then [] else [s[0]]) + Without(s[1..], drop)
  }

  /** Cardinal points first, then the rest of the perimeter clockwise. */
  function Ring(radius: int): seq<Cell>
    requires radius >= 1
  {
    Cardinals(radius) + Without(Perimeter(radius), Cardinals(radius))
  }

  /** A list that has reached position `i` of the side being walked. */
  lemma NextOnSide(done: seq<Cell>, side: seq<Cell>, i: nat)
    requires i < |side|
    ensures (done + side[..i]) + [side[i]] == done + side[..i + 1]
  {
    assert side[..i] + [side[i]] == side[..i + 1];
  }

  lemma SideDone(done: seq<Cell>, side: seq<Cell>)
    ensures done + side[..|side|] == done + side
  {
    assert side[..|side|] == side;
  }

  method WalkTop(radius: int) returns (perimeter: seq<Cell>)
    requires radius >= 1
    ensures perimeter == TopSide(radius)
  {
    perimeter := [];
    for x := -radius to radius + 1
      invariant perimeter == TopSide(radius)[..x + radius]
    {
      perimeter := perimeter + [Cell(x, -radius)];
    }
  }

  method WalkRight(start: seq<Cell>, radius: int) returns (perimeter: seq<Cell>)
    requires radius >= 1
    ensures perimeter == start + RightSide(radius)
  {
    perimeter := start;
    for y := -radius + 1 to radius + 1
      invariant perimeter == start + RightSide(radius)[..y + radius - 1]
    {
      NextOnSide(start, RightSide(radius), y + radius - 1);
      perimeter := perimeter + [Cell(radius, y)];
    }
    SideDone(start, RightSide(radius));
  }

  method WalkBottom(start: seq<Cell>, radius: int) returns (perimeter: seq<Cell>)
    requires radius >= 1
    ensures perimeter == start + BottomSide(radius)
  {
    perimeter := start;
    for x := radius downto -radius
      invariant perimeter == start + BottomSide(radius)[..radius - x]
    {
      NextOnSide(start, BottomSide(radius), radius - 1 - x);
      perimeter := perimeter + [Cell(x, radius)];
    }
    SideDone(start, BottomSide(radius));
  }

  method WalkLeft(start: seq<Cell>, radius: int) returns (perimeter: seq<Cell>)
    requires radius >= 1
    ensures perimeter == start + LeftSide(radius)
  {
    perimeter := start;
    for y := radius downto -radius + 1
      invariant perimeter == start + LeftSide(radius)[..radius - y]
    {
      NextOnSide(start, LeftSide(radius), radius - 1 - y);
      perimeter := perimeter + [Cell(-radius, y)];
    }
    SideDone(start, LeftSide(radius));
  }

  method WalkPerimeter(radius: int) returns (perimeter: seq<Cell>)
    requires radius >= 1
    ensures perimeter == Perimeter(radius)
  {
    perimeter := WalkTop(radius);
    perimeter := WalkRight(perimeter, radius);
    perimeter := WalkBottom(perimeter, radius);
    perimeter := WalkLeft(perimeter, radius);
  }

  method LeaveOut(s: seq<Cell>, drop: seq<Cell>) returns (kept: seq<Cell>)
    ensures kept == Without(s, drop)
  {
    kept := [];
    for i := 0 to |s|
      invariant kept + Without(s[i..], drop) == Without(s, drop)
    {
      assert s[i..][1..] == s[i + 1..];
      if s[i] !in drop {
        kept := kept + [s[i]];
      }
    }
  }

  method SquareRing(radius: int) returns (points: seq<Cell>)
    requires radius >= 1
    ensures points == Ring(radius)
  {
    var perimeter := WalkPerimeter(radius);
    var rest := LeaveOut(perimeter, Cardinals(radius));
    points := Cardinals(radius) + rest;
  }

  /** Where a displacement of length `radius` stands on the perimeter. */
  function PerimeterIndex(radius: int, d: Cell): int {
    if d.b == -radius then d.a + radius
    else if d.a == radius then d.b + 3 * radius
    else if d.b == radius then 5 * radius - d.a
    else 7 * radius - d.b
  }

  lemma PerimeterAt(radius: int, i: nat)
    requires radius >= 1 && i < 8 * radius
    ensures |Perimeter(radius)| == 8 * radius
    ensures var d := Perimeter(radius)[i]; Norm(d) == radius && PerimeterIndex(radius, d) == i
  {
  }

  lemma PerimeterHas(radius: int, d: Cell)
    requires radius >= 1 && Norm(d) == radius
    ensures |Perimeter(radius)| == 8 * radius
    ensures 0 <= PerimeterIndex(radius, d) < 8 * radius
    ensures Perimeter(radius)[PerimeterIndex(radius, d)] == d
  {
  }

  lemma PerimeterExact(radius: int)
    requires radius >= 1
    ensures |Perimeter(radius)| == 8 * radius && NoDup(Perimeter(radius))
    ensures forall d :: d in Perimeter(radius) <==> Norm(d) == radius
  {
    var p := Perimeter(radius);
    assert |p| == 8 * radius;
    forall i, j | 0 <= i < j < |p| ensures p[i] != p[j] {
      PerimeterAt(radius, i);
      PerimeterAt(radius, j);
    }
    forall d ensures d in p <==> Norm(d) == radius {
      if d in p {
        var i :| 0 <= i < |p| && p[i] == d;
        PerimeterAt(radius, i);
      }
      if Norm(d) == radius {
        PerimeterHas(radius, d);
      }
    }
  }

  lemma {:induction false} WithoutExact(s: seq<Cell>, drop: seq<Cell>)
    ensures forall d :: d in Without(s, drop) <==> d in s && d !in drop
    ensures NoDup(s) ==> NoDup(Without(s, drop))
  {
    if s != [] {
      WithoutExact(s[1..], drop);
      assert s == [s[0]] + s[1..];
      if NoDup(s) {
        NoDupSplit(s);
      }
    }
  }

  /** Dropping members that occur exactly once shortens the list by that many. */
  lemma {:induction false} WithoutSize(s: seq<Cell>, drop: seq<Cell>)
    requires NoDup(s) && NoDup(drop) && forall d :: d in drop ==> d in s
    ensures |Without(s, drop)| == |s| - |drop|
  {
    WithoutExact(s, drop);
    var kept := Without(s, drop);
    NoDupMultiset(s);
    NoDupMultiset(drop);
    NoDupMultiset(kept);
    forall d ensures multiset(s)[d] == multiset(kept)[d] + multiset(drop)[d] {
      assert d in s <==> d in multiset(s);
      assert d in kept <==> d in multiset(kept);
      assert d in drop <==> d in multiset(drop);
    }
    assert multiset(s) == multiset(kept) + multiset(drop);
    assert |multiset(s)| == |multiset(kept)| + |multiset(drop)|;
  }

  lemma JoinedNoDup(s: seq<Cell>, t: seq<Cell>)
    requires NoDup(s) && NoDup(t) && forall c :: c in t ==> c !in s
    ensures NoDup(s + t)
  {
    forall i, j | 0 <= i < j < |s + t| ensures (s + t)[i] != (s + t)[j] {
      if i < |s| <= j {
        assert t[j - |s|] in t && s[i] in s;
      }
    }
  }

  lemma CardinalsExact(radius: int)
    requires radius >= 1
    ensures |Cardinals(radius)| == 4 && NoDup(Cardinals(radius))
    ensures forall d :: d in Cardinals(radius) ==> Norm(d) == radius
  {
  }

  /** The ring of radius r lists each of the 8r displacements of length r exactly once. */
  lemma RingExact(radius: int)
    requires radius >= 1
    ensures |Ring(radius)| == 8 * radius && NoDup(Ring(radius))
    ensures forall d :: d in Ring(radius) <==> Norm(d) == radius
    ensures Ring(radius)[..4] == Cardinals(radius)
  {
    var p, c := Perimeter(radius), Cardinals(radius);
    PerimeterExact(radius);
    CardinalsExact(radius);
    WithoutExact(p, c);
    WithoutSize(p, c);
    JoinedNoDup(c, Without(p, c));
  }

  /** Where a displacement stands within its ring: the four cardinals, then the perimeter clockwise. */
  function RingOrder(d: Cell): int {
    var r: int := Norm(d);
    if d == Cell(0, -r) then 0
    else if d == Cell(r, 0) then 1
    else if d == Cell(0, r) then 2
    else if d == Cell(-r, 0) then 3
    else 4 + PerimeterIndex(r, d)
  }

  ghost predicate InPerimeterOrder(radius: int, s: seq<Cell>) {
    forall i, j :: 0 <= i < j < |s| ==> PerimeterIndex(radius, s[i]) < PerimeterIndex(radius, s[j])
  }

  lemma {:induction false} WithoutKeepsOrder(radius: int, s: seq<Cell>, drop: seq<Cell>)
    requires InPerimeterOrder(radius, s)
    ensures InPerimeterOrder(radius, Without(s, drop))
  {
    if s != [] {
      assert s == [s[0]] + s[1..];
      WithoutKeepsOrder(radius, s[1..], drop);
      WithoutExact(s[1..], drop);
      var tail := Without(s[1..], drop);
      forall j | 0 <= j < |tail| ensures PerimeterIndex(radius, s[0]) < PerimeterIndex(radius, tail[j]) {
        assert tail[j] in s[1..];
      }
    }
  }

  lemma OrderOffCardinals(radius: int, d: Cell)
    requires radius >= 1 && Norm(d) == radius && d !in Cardinals(radius)
    ensures RingOrder(d) == 4 + PerimeterIndex(radius, d) >= 4
  {
    var c := Cardinals(radius);
    assert c[0] in c && c[1] in c && c[2] in c && c[3] in c;
    PerimeterHas(radius, d);
  }

  lemma PerimeterInOrder(radius: int)
    requires radius >= 1
    ensures InPerimeterOrder(radius, Perimeter(radius))
  {
    var p := Perimeter(radius);
    forall i, j | 0 <= i < j < |p| ensures PerimeterIndex(radius, p[i]) < PerimeterIndex(radius, p[j]) {
      PerimeterAt(radius, i);
      PerimeterAt(radius, j);
    }
  }

  lemma CardinalOrder(radius: int, k: nat)
    requires radius >= 1 && k < 4
    ensures RingOrder(Cardinals(radius)[k]) == k
  {
  }

  lemma RestOrder(radius: int, k: nat)
    requires radius >= 1 && k < |Without(Perimeter(radius), Cardinals(radius))|
    ensures RingOrder(Without(Perimeter(radius), Cardinals(radius))[k]) ==
            4 + PerimeterIndex(radius, Without(Perimeter(radius), Cardinals(radius))[k]) >= 4
  {
    var p, c := Perimeter(radius), Cardinals(radius);
    PerimeterExact(radius);
    WithoutExact(p, c);
    assert Without(p, c)[k] in Without(p, c);
    OrderOffCardinals(radius, Without(p, c)[k]);
  }

  /** The ring is listed in ring order. */
  lemma RingInOrder(radius: int, i: nat, j: nat)
    requires radius >= 1 && i < j < |Ring(radius)|
    ensures RingOrder(Ring(radius)[i]) < RingOrder(Ring(radius)[j])
  {
    if j < 4 {
      CardinalOrder(radius, i);
      CardinalOrder(radius, j);
    } else {
      RestOrder(radius, j - 4);
      if i < 4 {
        CardinalOrder(radius, i);
      } else {
        RestOrder(radius, i - 4);
        PerimeterInOrder(radius);
        WithoutKeepsOrder(radius, Perimeter(radius), Cardinals(radius));
      }
    }
  }

  // ----- Searching ring after ring

  /** `c` is scanned no later than `d`: on an inner ring, or on the same one and not later in it. */
  predicate NoLater(centre: Cell, c: Cell, d: Cell) {
    || Distance(centre, c) < Distance(centre, d)
    || (Distance(centre, c) == Distance(centre, d) && RingOrder(Minus(c, centre)) <= RingOrder(Minus(d, centre)))
  }

  /** `c` is what a search of rings 1 to `limit` comes across first. */
  ghost predicate IsFirst(centre: Cell, limit: int, ok: Cell -> bool, c: Cell) {
    && ok(c) && 1 <= Distance(centre, c) <= limit
    && forall d {:trigger NoLater(centre, c, d)} :: ok(d) && 1 <= Distance(centre, d) ==> NoLater(centre, c, d)
  }

  /** The first acceptable cell on rings 1 to `limit` around `centre`, if there is one. */
  ghost function Scan(centre: Cell, limit: int, ok: Cell -> bool): Option<Cell> {
    if exists c :: IsFirst(centre, limit, ok, c)
    then var c :| IsFirst(centre, limit, ok, c); Some(c)
    else None
  }

  lemma RingOrderIsInjective(d: Cell, e: Cell)
    requires Norm(d) == Norm(e) >= 1 && RingOrder(d) == RingOrder(e)
    ensures d == e
  {
    PerimeterHas(Norm(d), d);
    PerimeterHas(Norm(d), e);
  }

  lemma FirstIsUnique(centre: Cell, limit: int, ok: Cell -> bool, c: Cell, d: Cell)
    requires IsFirst(centre, limit, ok, c) && IsFirst(centre, limit, ok, d)
    ensures c == d
  {
    assert NoLater(centre, c, d) && NoLater(centre, d, c);
    RingOrderIsInjective(Minus(c, centre), Minus(d, centre));
  }

  /** The cells of rings 1 to radius - 1 are all refused. */
  ghost predicate InnerRefused(centre: Cell, radius: int, ok: Cell -> bool) {
    forall d :: 1 <= Distance(centre, d) < radius ==> !ok(d)
  }

  /** On its own ring an earlier position is no later in the scan. */
  lemma NoLaterOnRing(centre: Cell, radius: int, k: nat, i: nat)
    requires radius >= 1 && k < |Ring(radius)| && i < |Ring(radius)| && k <= i
    ensures NoLater(centre, Plus(centre, Ring(radius)[k]), Plus(centre, Ring(radius)[i]))
  {
    RingExact(radius);
    assert Ring(radius)[k] in Ring(radius) && Ring(radius)[i] in Ring(radius);
    assert Minus(Plus(centre, Ring(radius)[k]), centre) == Ring(radius)[k];
    assert Minus(Plus(centre, Ring(radius)[i]), centre) == Ring(radius)[i];
    if k < i {
      RingInOrder(radius, k, i);
    }
  }

  /** A cell of the ring is found at some position of it. */
  lemma PlaceOnRing(centre: Cell, radius: int, d: Cell) returns (i: nat)
    requires radius >= 1 && Distance(centre, d) == radius
    ensures i < |Ring(radius)| && Plus(centre, Ring(radius)[i]) == d
  {
    RingExact(radius);
    assert Minus(d, centre) in Ring(radius);
    i :| 0 <= i < |Ring(radius)| && Ring(radius)[i] == Minus(d, centre);
  }

  lemma HitIsFirst(centre: Cell, radius: int, ok: Cell -> bool, k: nat)
    requires radius >= 1 && InnerRefused(centre, radius, ok) && k < |Ring(radius)|
    requires forall j :: 0 <= j < k ==> !ok(Plus(centre, Ring(radius)[j]))
    requires ok(Plus(centre, Ring(radius)[k]))
    ensures IsFirst(centre, radius, ok, Plus(centre, Ring(radius)[k]))
  {
    var ring := Ring(radius);
    var c := Plus(centre, ring[k]);
    RingExact(radius);
    assert Minus(c, centre) == ring[k] && ring[k] in ring;
    forall d | ok(d) && 1 <= Distance(centre, d) ensures NoLater(centre, c, d) {
      if Distance(centre, d) == radius {
        var i := PlaceOnRing(centre, radius, d);
        NoLaterOnRing(centre, radius, k, i);
      }
    }
  }

  lemma MissRefusesRing(centre: Cell, radius: int, ok: Cell -> bool)
    requires radius >= 1 && InnerRefused(centre, radius, ok)
    requires forall j :: 0 <= j < |Ring(radius)| ==> !ok(Plus(centre, Ring(radius)[j]))
    ensures InnerRefused(centre, radius + 1, ok)
  {
    var ring := Ring(radius);
    RingExact(radius);
    forall d | 1 <= Distance(centre, d) < radius + 1 ensures !ok(d) {
      if Distance(centre, d) == radius {
        assert Minus(d, centre) in ring;
        var i :| 0 <= i < |ring| && ring[i] == Minus(d, centre);
        assert Plus(centre, ring[i]) == d;
      }
    }
  }

  method FirstOnRing(centre: Cell, ring: seq<Cell>, ok: Cell -> bool) returns (i: nat)
    ensures i <= |ring|
    ensures forall j :: 0 <= j < i ==> !ok(Plus(centre, ring[j]))
    ensures i < |ring| ==> ok(Plus(centre, ring[i]))
  {
    i := 0;
    while i < |ring| && !ok(Plus(centre, ring[i]))
      invariant i <= |ring|
      invariant forall j :: 0 <= j < i ==> !ok(Plus(centre, ring[j]))
    {
      i := i + 1;
    }
  }

  method ScanRings(centre: Cell, limit: int, ok: Cell -> bool) returns (found: Option<Cell>)
    ensures found == Scan(centre, limit, ok)
  {
    var radius := 1;
    while radius <= limit
      invariant radius >= 1 && InnerRefused(centre, radius, ok)
    {
      var ring := SquareRing(radius);
      var i := FirstOnRing(centre, ring, ok);
      if i < |ring| {
        HitIsFirst(centre, radius, ok, i);
        FirstIsFound(centre, radius, limit, ok, Plus(centre, ring[i]));
        return Some(Plus(centre, ring[i]));
      }
      MissRefusesRing(centre, radius, ok);
      radius := radius + 1;
    }
    return None;
  }

  lemma FirstIsFound(centre: Cell, radius: int, limit: int, ok: Cell -> bool, c: Cell)
    requires radius <= limit && IsFirst(centre, radius, ok, c)
    ensures Scan(centre, limit, ok) == Some(c)
  {
    assert IsFirst(centre, limit, ok, c);
    FirstIsUnique(centre, limit, ok, Scan(centre, limit, ok).value, c);
  }

  /** An acceptable cell within the limit: the search finds one, and no farther away. */
  lemma {:induction false} ScanBeats(centre: Cell, limit: int, ok: Cell -> bool, d: Cell)
    requires ok(d) && 1 <= Distance(centre, d) <= limit
    ensures var found := Scan(centre, limit, ok);
      found.Some? && ok(found.value) && 1 <= Distance(centre, found.value) <= Distance(centre, d)
  {
    FirstExists(centre, 1, limit, ok, d);
    assert NoLater(centre, Scan(centre, limit, ok).value, d);
  }

  /** What is found is acceptable and within the limit. */
  lemma ScanIsAcceptable(centre: Cell, limit: int, ok: Cell -> bool)
    ensures var found := Scan(centre, limit, ok);
      found.Some? ==> ok(found.value) && 1 <= Distance(centre, found.value) <= limit
  {
  }

  /** Scanning ring by ring from `radius` on comes across `d` at the latest. */
  lemma {:induction false} FirstExists(centre: Cell, radius: int, limit: int, ok: Cell -> bool, d: Cell)
    requires 1 <= radius && InnerRefused(centre, radius, ok) && ok(d) && 1 <= Distance(centre, d) <= limit
    ensures exists c :: IsFirst(centre, limit, ok, c)
    decreases Distance(centre, d) - radius
  {
    var ring := Ring(radius);
    if k: nat :| k < |ring| && ok(Plus(centre, ring[k])) {
      var i := FirstIndex(centre, ring, ok, k);
      HitIsFirst(centre, radius, ok, i);
      var c := Plus(centre, ring[i]);
      assert IsFirst(centre, limit, ok, c);
    } else {
      MissRefusesRing(centre, radius, ok);
      FirstExists(centre, radius + 1, limit, ok, d);
    }
  }

  lemma {:induction false} FirstIndex(centre: Cell, ring: seq<Cell>, ok: Cell -> bool, k: nat) returns (i: nat)
    requires k < |ring| && ok(Plus(centre, ring[k]))
    ensures i <= k && ok(Plus(centre, ring[i]))
    ensures forall j :: 0 <= j < i ==> !ok(Plus(centre, ring[j]))
  {
    if j: nat :| j < k && ok(Plus(centre, ring[j])) {
      i := FirstIndex(centre, ring, ok, j);
    } else {
      i := k;
    }
  }

  // ----- Counting cells

  function Box(a0: int, a1: int, b0: int, b1: int): set<Cell> {
    set a, b | a0 <= a < a1 && b0 <= b < b1 :: Cell(a, b)
  }

  lemma {:induction false} RowSize(a: int, b0: int, b1: int)
    requires b0 <= b1
    ensures |Box(a, a + 1, b0, b1)| == b1 - b0
    decreases b1 - b0
  {
    if b0 == b1 {
      assert Box(a, a + 1, b0, b1) == {};
    } else {
      RowSize(a, b0, b1 - 1);
      assert Box(a, a + 1, b0, b1) == Box(a, a + 1, b0, b1 - 1) + {Cell(a, b1 - 1)};
    }
  }

  lemma {:induction false} BoxSize(a0: int, a1: int, b0: int, b1: int)
    requires a0 <= a1 && b0 <= b1
    ensures |Box(a0, a1, b0, b1)| == (a1 - a0) * (b1 - b0)
    decreases a1 - a0
  {
    if a0 == a1 {
      assert Box(a0, a1, b0, b1) == {};
    } else {
      BoxSize(a0, a1 - 1, b0, b1);
      RowSize(a1 - 1, b0, b1);
      assert Box(a0, a1, b0, b1) == Box(a0, a1 - 1, b0, b1) + Box(a1 - 1, a1, b0, b1);
      assert Box(a0, a1 - 1, b0, b1) !! Box(a1 - 1, a1, b0, b1);
      assert (a1 - a0) * (b1 - b0) == (a1 - 1 - a0) * (b1 - b0) + (b1 - b0);
    }
  }

  /** Pigeonhole: fewer marked cells than the box holds leaves one unmarked. */
  lemma BoxHasFreeCell(a0: int, a1: int, b0: int, b1: int, marked: set<Cell>)
    requires a0 <= a1 && b0 <= b1 && |marked| < (a1 - a0) * (b1 - b0)
    ensures exists c :: c in Box(a0, a1, b0, b1) && c !in marked
  {
    if forall c :: c in Box(a0, a1, b0, b1) ==> c in marked {
      BoxSize(a0, a1, b0, b1);
      SubsetSize(Box(a0, a1, b0, b1), marked);
    }
  }

  // ----- The bounded search of a fixed grid (1-indexed rows and columns)

  predicate InGrid(c: Cell, rows: int, columns: int) {
    1 <= c.a <= rows && 1 <= c.b <= columns
  }

  function Free(occupied: set<Cell>): Cell -> bool {
    c => c !in occupied
  }

  function FreeInGrid(occupied: set<Cell>, rows: int, columns: int): Cell -> bool {
    c => InGrid(c, rows, columns) && c !in occupied
  }

  /** The first free cell in row-major order, from (row, column) on. */
  function SweepFrom(row: int, column: int, occupied: set<Cell>, rows: int, columns: int): Option<Cell>
    decreases rows - row, columns - column
  {
    if row > rows then None
    else if column > columns then SweepFrom(row + 1, 1, occupied, rows, columns)
    else if Cell(row, column) !in occupied then Some(Cell(row, column))
    else SweepFrom(row, column + 1, occupied, rows, columns)
  }

  /** _reserve_bounded_cell: the cell itself, else the nearest free one, else any free one, else the cell. */
  ghost function BoundedCell(c: Cell, occupied: set<Cell>, rows: int, columns: int): Cell {
    if c !in occupied then c
    else match Scan(c, rows + columns, FreeInGrid(occupied, rows, columns))
      case Some(d) => d
      case None =>
        match SweepFrom(1, 1, occupied, rows, columns)
        case Some(d) => d
        case None => c
  }

  method SweepGrid(occupied: set<Cell>, rows: int, columns: int) returns (found: Option<Cell>)
    ensures found == SweepFrom(1, 1, occupied, rows, columns)
  {
    var row := 1;
    while row <= rows
      invariant SweepFrom(1, 1, occupied, rows, columns) == SweepFrom(row, 1, occupied, rows, columns)
    {
      var column := 1;
      while column <= columns
        invariant SweepFrom(1, 1, occupied, rows, columns) == SweepFrom(row, column, occupied, rows, columns)
        invariant column <= Max(0, columns) + 1
      {
        if Cell(row, column) !in occupied {
          return Some(Cell(row, column));
        }
        column := column + 1;
      }
      row := row + 1;
    }
    return None;
  }

  method ReserveBoundedCell(c: Cell, occupied: set<Cell>, rows: int, columns: int) returns (r: Cell)
    ensures r == BoundedCell(c, occupied, rows, columns)
  {
    if c !in occupied {
      return c;
    }
    var found := ScanRings(c, rows + columns, FreeInGrid(occupied, rows, columns));
    if found.None? {
      found := SweepGrid(occupied, rows, columns);
    }
    r := if found.Some? then found.value else c;
  }

  /** Two cells of one grid are closer than the search limit. */
  lemma GridSpan(c: Cell, d: Cell, rows: int, columns: int)
    requires InGrid(c, rows, columns) && InGrid(d, rows, columns)
    ensures Distance(c, d) < rows + columns
    ensures Distance(c, d) == 0 <==> c == d
  {
  }

  ghost predicate SomeFree(occupied: set<Cell>, rows: int, columns: int) {
    exists d :: FreeInGrid(occupied, rows, columns)(d)
  }

  /** No free grid cell is nearer to `c` than the answer. */
  lemma BoundedCellBeats(c: Cell, occupied: set<Cell>, rows: int, columns: int, d: Cell)
    requires InGrid(c, rows, columns) && FreeInGrid(occupied, rows, columns)(d)
    ensures var r := BoundedCell(c, occupied, rows, columns);
      FreeInGrid(occupied, rows, columns)(r) && Distance(c, r) <= Distance(c, d)
  {
    GridSpan(c, d, rows, columns);
    if c in occupied {
      ScanBeats(c, rows + columns, FreeInGrid(occupied, rows, columns), d);
      assert BoundedCell(c, occupied, rows, columns)
          == Scan(c, rows + columns, FreeInGrid(occupied, rows, columns)).value;
    }
  }

  /** From a cell of the grid: while any grid cell is free the answer is a nearest free grid cell. */
  lemma BoundedCellIsNearest(c: Cell, occupied: set<Cell>, rows: int, columns: int)
    requires InGrid(c, rows, columns) && SomeFree(occupied, rows, columns)
    ensures var r := BoundedCell(c, occupied, rows, columns);
      && FreeInGrid(occupied, rows, columns)(r)
      && forall d :: FreeInGrid(occupied, rows, columns)(d) ==> Distance(c, r) <= Distance(c, d)
  {
    var e :| FreeInGrid(occupied, rows, columns)(e);
    BoundedCellBeats(c, occupied, rows, columns, e);
    forall d | FreeInGrid(occupied, rows, columns)(d)
      ensures Distance(c, BoundedCell(c, occupied, rows, columns)) <= Distance(c, d)
    {
      BoundedCellBeats(c, occupied, rows, columns, d);
    }
  }

  lemma ScanFindsFree(c: Cell, limit: int, occupied: set<Cell>, rows: int, columns: int)
    ensures var found := Scan(c, limit, FreeInGrid(occupied, rows, columns));
      found.Some? ==> FreeInGrid(occupied, rows, columns)(found.value)
  {
    ScanIsAcceptable(c, limit, FreeInGrid(occupied, rows, columns));
  }

  /** On a full grid the answer is the cell asked for. */
  lemma BoundedCellOfFullGrid(c: Cell, occupied: set<Cell>, rows: int, columns: int)
    requires !SomeFree(occupied, rows, columns)
    ensures BoundedCell(c, occupied, rows, columns) == c
  {
    ScanFindsFree(c, rows + columns, occupied, rows, columns);
    SweepFindsFree(1, 1, occupied, rows, columns);
  }

  lemma BoundedCellInGrid(c: Cell, occupied: set<Cell>, rows: int, columns: int)
    requires InGrid(c, rows, columns)
    ensures InGrid(BoundedCell(c, occupied, rows, columns), rows, columns)
    ensures SomeFree(occupied, rows, columns) ==> BoundedCell(c, occupied, rows, columns) !in occupied
  {
    if SomeFree(occupied, rows, columns) {
      BoundedCellIsNearest(c, occupied, rows, columns);
    } else {
      BoundedCellOfFullGrid(c, occupied, rows, columns);
    }
  }

  lemma {:induction false} SweepFindsFree(row: int, column: int, occupied: set<Cell>, rows: int, columns: int)
    requires 1 <= row && 1 <= column
    ensures match SweepFrom(row, column, occupied, rows, columns)
      case Some(c) => FreeInGrid(occupied, rows, columns)(c)
      case None => true
    decreases rows - row, columns - column
  {
    if row > rows {
    } else if column > columns {
      SweepFindsFree(row + 1, 1, occupied, rows, columns);
    } else if Cell(row, column) in occupied {
      SweepFindsFree(row, column + 1, occupied, rows, columns);
    }
  }

  /** While fewer cells are occupied than the grid holds, one of its cells is free. */
  lemma GridHasFreeCell(occupied: set<Cell>, rows: int, columns: int)
    requires rows >= 1 && columns >= 1 && |occupied| < rows * columns
    ensures SomeFree(occupied, rows, columns)
  {
    BoxHasFreeCell(1, rows + 1, 1, columns + 1, occupied);
    var d :| d in Box(1, rows + 1, 1, columns + 1) && d !in occupied;
    assert FreeInGrid(occupied, rows, columns)(d);
  }

  // ----- The unbounded search of the logical board

  const LAST_RING := 4095

  /** _reserve_slot: the slot itself, else the nearest unclaimed one on rings 1 to 4095, else the slot. */
  ghost function SlotFor(ideal: Cell, occupied: set<Cell>): Cell {
    if ideal !in occupied then ideal
    else match Scan(ideal, LAST_RING, Free(occupied))
      case Some(c) => c
      case None => ideal
  }

  /** The slots the search can reach: 8191 x 8191 of them, the ideal one in the middle. */
  function Reach(ideal: Cell): set<Cell> {
    Box(ideal.a - LAST_RING, ideal.a + LAST_RING + 1, ideal.b - LAST_RING, ideal.b + LAST_RING + 1)
  }

  lemma InReach(ideal: Cell, d: Cell)
    ensures d in Reach(ideal) <==> Distance(ideal, d) <= LAST_RING
  {
  }

  /** No unclaimed slot is nearer than the answer; only when all reachable ones are claimed is the
      answer a claimed slot. */
  lemma SlotForIsNearest(ideal: Cell, occupied: set<Cell>)
    ensures SlotFor(ideal, occupied) in occupied <==> forall d :: Distance(ideal, d) <= 4095 ==> d in occupied
    ensures SlotFor(ideal, occupied) !in occupied ==>
      forall d :: d !in occupied ==> Distance(ideal, SlotFor(ideal, occupied)) <= Distance(ideal, d)
  {
    if ideal !in occupied {
      assert Distance(ideal, ideal) == 0;
    } else {
      var ok := Free(occupied);
      ScanIsAcceptable(ideal, LAST_RING, ok);
      forall d | d !in occupied
        ensures Distance(ideal, d) <= 4095 ==> Scan(ideal, LAST_RING, ok).Some?
        ensures Scan(ideal, LAST_RING, ok).Some? ==>
                  Distance(ideal, Scan(ideal, LAST_RING, ok).value) <= Distance(ideal, d)
      {
        assert ok(d) && 1 <= Distance(ideal, d);
        if Distance(ideal, d) <= LAST_RING {
          ScanBeats(ideal, LAST_RING, ok, d);
        }
      }
    }
  }

  /** Until 67092481 slots are claimed the search never gives up. */
  lemma SlotForIsFree(ideal: Cell, occupied: set<Cell>)
    requires |occupied| < 8191 * 8191
    ensures SlotFor(ideal, occupied) !in occupied
  {
    SlotForIsNearest(ideal, occupied);
    if SlotFor(ideal, occupied) in occupied {
      forall d | d in Reach(ideal) ensures d in occupied {
        InReach(ideal, d);
      }
      BoxSize(ideal.a - LAST_RING, ideal.a + LAST_RING + 1, ideal.b - LAST_RING, ideal.b + LAST_RING + 1);
      SubsetSize(Reach(ideal), occupied);
    }
  }
}
