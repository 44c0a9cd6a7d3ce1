/** Where a relay stage wants to be: at its even share of the straight way from YOU to the client. */
module RelayAim {
  import opened Common
  import opened Sorting
  import opened Grid
  import opened Slots
  import opened Stretch
  import opened Relay

  // ----- The points of the way

  /** `c` is a nearest whole number to the point reached after `step` of `count` + 1 equal steps from `from` to `to`;
      of two equally near ones it is the even one. */
  ghost predicate NearestStep(c: int, from: int, to: int, step: int, count: int) {
    var off := (count + 1) * (c - from) - (to - from) * step;
    && -(count + 1) <= 2 * off <= count + 1
    && (2 * off == count + 1 || 2 * off == -(count + 1) ==> c % 2 == 0)
  }

  ghost predicate OnTheWay(w: Cell, you: Cell, client: Cell, step: int, count: int) {
    NearestStep(w.a, you.a, client.a, step, count) && NearestStep(w.b, you.b, client.b, step, count)
  }

  lemma Factored(d: int, c: int, from: int)
    ensures d * (c - from) == d * c - d * from
  {
  }

  /** A product of a whole number with a positive one is at least that one, or not positive. */
  lemma Whole(e: int, d: int)
    requires d >= 1
    ensures (e >= 1 ==> d * e >= d) && (e <= -1 ==> d * e <= -d)
    ensures (e >= 2 ==> d * e >= 2 * d) && (e <= -2 ==> d * e <= -2 * d)
  {
    AtLeastOnce(e, d);
    AtLeastOnce(e - 1, d);
    AtLeastOnce(e + 1, d);
    assert d * e == d * (e - 1) + d == d * (e + 1) - d;
  }

  lemma NearestStepIsUnique(c: int, c': int, from: int, to: int, step: int, count: nat)
    requires NearestStep(c, from, to, step, count) && NearestStep(c', from, to, step, count)
    ensures c == c'
  {
    var d := count + 1;
    Factored(d, c, from);
    Factored(d, c', from);
    Factored(d, c, c');
    Whole(c - c', d);
  }

  lemma WayIsUnique(w: Cell, w': Cell, you: Cell, client: Cell, step: int, count: nat)
    requires OnTheWay(w, you, client, step, count) && OnTheWay(w', you, client, step, count)
    ensures w == w'
  {
    NearestStepIsUnique(w.a, w'.a, you.a, client.a, step, count);
    NearestStepIsUnique(w.b, w'.b, you.b, client.b, step, count);
  }

  lemma PartOfTheWay(length: int, step: int, steps: int)
    requires 0 <= step <= steps
    ensures length >= 0 ==> 0 <= length * step <= length * steps
    ensures length <= 0 ==> length * steps <= length * step <= 0
  {
    var rest := steps - step;
    assert length * steps == length * step + length * rest;
    if length >= 0 {
      assert length * step >= 0 && length * rest >= 0;
    } else {
      assert length * step <= 0 && length * rest <= 0;
    }
  }

  /** The same in terms of the products x = d (c - from), y = d (c - to), p and the whole length l. */
  lemma BetweenByProducts(c: int, from: int, to: int, d: int, x: int, y: int, p: int, l: int)
    requires d >= 1 && -d <= 2 * (x - p) <= d && y == x - l
    requires (from <= to ==> 0 <= p <= l) && (to <= from ==> l <= p <= 0)
    requires (c > from ==> x >= d) && (c < from ==> x <= -d) && (c > to ==> y >= d) && (c < to ==> y <= -d)
    ensures Min(from, to) <= c <= Max(from, to)
  {
  }

  /** The points lie between the ends. */
  lemma StaysBetween(c: int, from: int, to: int, step: int, count: nat)
    requires NearestStep(c, from, to, step, count) && 0 <= step <= count + 1
    ensures Min(from, to) <= c <= Max(from, to)
  {
    var d := count + 1;
    PartOfTheWay(to - from, step, d);
    Whole(c - from, d);
    Whole(c - to, d);
    var x, y, p, l := d * (c - from), d * (c - to), (to - from) * step, (to - from) * d;
    assert y == x - l by {
      Factored(d, c, from);
      Factored(d, c, to);
      Factored(d, to, from);
    }
    BetweenByProducts(c, from, to, d, x, y, p, l);
  }

  lemma MoreOfTheWay(length: int, step: int, more: int)
    requires step <= more
    ensures length >= 0 ==> length * step <= length * more
    ensures length <= 0 ==> length * more <= length * step
  {
    PartOfTheWay(length, 0, more - step);
    PartOfTheWay(length, more - step, more - step);
    assert length * more == length * step + length * (more - step);
  }

  /** They follow each other from one end to the other. */
  lemma GoesOneWay(c: int, c': int, from: int, to: int, step: int, more: int, count: nat)
    requires NearestStep(c, from, to, step, count) && NearestStep(c', from, to, more, count) && step <= more
    ensures from <= to ==> c <= c'
    ensures to <= from ==> c' <= c
  {
    var d := count + 1;
    MoreOfTheWay(to - from, step, more);
    Factored(d, c, from);
    Factored(d, c', from);
    Factored(d, c, c');
    Whole(c - c', d);
  }

  // ----- What a stage wants

  lemma OffTheRounded(k: int, from: int, d: int, p: int, n: int)
    requires n == from * d + p
    ensures d * (k - from) - p == k * d - n
  {
    Factored(d, k, from);
  }

  lemma BetweenIsNearest(from: int, to: int, step: nat, count: nat)
    ensures NearestStep(Between(from, to, step, count), from, to, step, count)
  {
    var d, p := count + 1, (to - from) * step;
    var n := from * d + p;
    RoundsToNearest(n, d);
    OffTheRounded(RoundHalfEven(n, d), from, d, p, n);
  }

  /** With both ends on the grid, stage `step` of `count` wants the point of the way that is its own: a nearest grid
      cell to it, between the ends. */
  lemma IdealIsOnTheWay(v: Canvas, you: Cell, client: Cell, count: nat, step: nat)
    requires InGrid(you, v.rows, v.columns) && InGrid(client, v.rows, v.columns) && 1 <= step <= count
    ensures var w := LinkTo(v, you, client, count).ideal(step);
      && OnTheWay(w, you, client, step, count) && InGrid(w, v.rows, v.columns)
      && Min(you.a, client.a) <= w.a <= Max(you.a, client.a)
      && Min(you.b, client.b) <= w.b <= Max(you.b, client.b)
  {
    BetweenIsNearest(you.a, client.a, step, count);
    BetweenIsNearest(you.b, client.b, step, count);
    StaysBetween(Between(you.a, client.a, step, count), you.a, client.a, step, count);
    StaysBetween(Between(you.b, client.b, step, count), you.b, client.b, step, count);
  }

  ghost predicate Towards(c: int, c': int, from: int, to: int) {
    if from <= to then c <= c' else c' <= c
  }

  /** Later stages want cells farther along, on either axis. */
  lemma IdealsGoOneWay(v: Canvas, you: Cell, client: Cell, count: nat, step: nat, more: nat)
    requires InGrid(you, v.rows, v.columns) && InGrid(client, v.rows, v.columns) && 1 <= step <= more <= count
    ensures var k := LinkTo(v, you, client, count);
      && Towards(k.ideal(step).a, k.ideal(more).a, you.a, client.a)
      && Towards(k.ideal(step).b, k.ideal(more).b, you.b, client.b)
  {
    var k := LinkTo(v, you, client, count);
    IdealIsOnTheWay(v, you, client, count, step);
    IdealIsOnTheWay(v, you, client, count, more);
    GoesOneWay(k.ideal(step).a, k.ideal(more).a, you.a, client.a, step, more, count);
    GoesOneWay(k.ideal(step).b, k.ideal(more).b, you.b, client.b, step, more, count);
  }

  // ----- Where it stands

  lemma {:induction false} StageOfChain(v: Canvas, k: Link, start: set<Cell>, cells: seq<Cell>, n: nat, i: nat)
    requires i < n <= |cells| && ChainSoFar(v, k, start, cells, n)
    ensures cells[i] == k.pick(LimitsAt(v, k, start, cells, i), k.ideal(i + 1))
  {
    if i < n - 1 {
      StageOfChain(v, k, start, cells, n - 1, i);
    }
  }

  /** A stage stands on `w` when that satisfies its limits, and otherwise on a satisfying cell nearest to `w`. */
  ghost predicate StandsNear(v: Canvas, l: Limits, w: Cell, stands: Cell) {
    && (Satisfies(v, l, w) ==> stands == w)
    && (AnySuitable(v, l) ==>
          Suitable(v, l)(stands) && forall d :: Suitable(v, l)(d) ==> Distance(w, stands) <= Distance(w, d))
  }

  lemma StageStandsNear(v: Canvas, l: Limits, w: Cell)
    requires InGrid(w, v.rows, v.columns)
    ensures StandsNear(v, l, w, StageCell(v, l, w))
  {
    if AnySuitable(v, l) {
      StageCellIsNearest(v, l, w);
    }
  }

  /** On the built board each stage of a client stands on its own point of the way if that satisfies the stage's limits,
      and else nearest to it. */
  lemma BuiltStageStandsNear(v: Canvas, placed: map<NodeId, Cell>, you: NodeId, ordered: seq<Hop>, n: nat, i: nat,
                             w: Cell)
    requires DistinctClients(ordered) && you in placed && n < |ordered| && HasChain(placed, ordered[n])
    requires InGrid(placed[you], v.rows, v.columns) && InGrid(placed[ordered[n].client], v.rows, v.columns)
    requires 1 <= i <= ordered[n].count && OnTheWay(w, placed[you], placed[ordered[n].client], i, ordered[n].count)
    ensures forall j ::
        1 <= j <= ordered[n].count ==> Stage(ordered[n].client, j) in BuildTo(v, placed, you, ordered).positions
    ensures var positions := BuildTo(v, placed, you, ordered).positions;
      var k := LinkTo(v, placed[you], placed[ordered[n].client], ordered[n].count);
      StandsNear(v,
                 LimitsAt(v, k, TakenBefore(v, placed, you, ordered, n), StageCells(positions, ordered[n]), i - 1), w,
                 positions[Stage(ordered[n].client, i)])
  {
    var h := ordered[n];
    var k := LinkTo(v, placed[you], placed[h.client], h.count);
    var start := TakenBefore(v, placed, you, ordered, n);
    ClientStages(v, placed, you, ordered, n);
    var cells := StageCells(BuildTo(v, placed, you, ordered).positions, h);
    CellsToIsChain(v, k, start, h.count);
    StageOfChain(v, k, start, cells, h.count, i - 1);
    IdealIsOnTheWay(v, placed[you], placed[h.client], h.count, i);
    WayIsUnique(w, k.ideal(i), placed[you], placed[h.client], i, h.count);
    StageStandsNear(v, LimitsAt(v, k, start, cells, i - 1), w);
  }
}
