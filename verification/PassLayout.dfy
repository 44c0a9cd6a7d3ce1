/** The PASSES board: names in equal columns, as many as fit. `measure` is the width the terminal draws, `declared`
    the width the screen is cropped by. */
module PassLayout {
  import opened Common
  import opened Sorting
  import opened Grapheme

  const NAME_MAX_CELLS: int := 16
  const COLUMN_GUTTER: int := 4
  const MAX_COLUMN_GUTTER: int := 8
  const COLUMNS_RESERVED: int := 1
  const MARKER: string := "~"

  function AtMost(): (int, int) -> bool {
    (a, b) => a <= b
  }

  function Widths(names: seq<string>, measure: string -> int): seq<int> {
    seq(|names|, i requires 0 <= i < |names| => measure(names[i]))
  }

  /** The position of the typical width among `n` sorted ones: nine tenths of the way. */
  function Typical(n: nat): nat
    requires n > 0
  {
    Min(n - 1, n * 9 / 10)
  }

  function TypicalWidth(names: seq<string>, measure: string -> int): int
    requires names != []
  {
    SortPermutes(Widths(names, measure), AtMost());
    Sort(Widths(names, measure), AtMost())[Typical(|names|)]
  }

  function ColumnWidth(names: seq<string>, measure: string -> int): int {
    if names == [] then 1 else Max(1, Min(TypicalWidth(names, measure), NAME_MAX_CELLS))
  }

  function ColumnCount(names: seq<string>, viewport: int, measure: string -> int): int {
    var width := ColumnWidth(names, measure);
    if viewport < width then 1 else Max(1, (viewport + COLUMN_GUTTER) / (width + COLUMN_GUTTER) - COLUMNS_RESERVED)
  }

  function GutterFor(columns: int, width: int, viewport: int): int {
    if columns < 2 then COLUMN_GUTTER
    else Max(COLUMN_GUTTER, Min(MAX_COLUMN_GUTTER, (viewport - columns * width) / (columns - 1)))
  }

  function Gutter(names: seq<string>, viewport: int, measure: string -> int): int {
    GutterFor(ColumnCount(names, viewport, measure), ColumnWidth(names, measure), viewport)
  }

  function Spaces(n: nat): string {
    seq(n, i => ' ')
  }

  function Padded(value: string, width: int, measure: string -> int): string {
    value + Spaces(Max(0, width - measure(value)))
  }

  function CellFor(mark: char -> bool, name: string, width: int, measure: string -> int): string {
    Padded(Truncated(mark, measure, name, width, MARKER), width, measure)
  }

  function CellsOf(mark: char -> bool, names: seq<string>, width: int, measure: string -> int): seq<string> {
    seq(|names|, i requires 0 <= i < |names| => CellFor(mark, names[i], width, measure))
  }

  function Rows(cells: seq<string>, columns: nat): seq<seq<string>>
    requires columns > 0
  {
    if |cells| <= columns then (if cells == [] then [] else [cells])
    else [cells[..columns]] + Rows(cells[columns..], columns)
  }

  function Total(row: seq<string>, declared: string -> int): int {
    if row == [] then 0 else Total(row[..|row| - 1], declared) + declared(row[|row| - 1])
  }

  function RowWidth(row: seq<string>, gutter: int, declared: string -> int): int {
    Total(row, declared) + gutter * (|row| - 1)
  }

  function Widest(rows: seq<seq<string>>, gutter: int, declared: string -> int): int {
    if rows == [] then 0
    else if |rows| == 1 then RowWidth(rows[0], gutter, declared)
    else Max(RowWidth(rows[0], gutter, declared), Widest(rows[1..], gutter, declared))
  }

  /** The most columns, no more than asked, at which nothing is cropped; one when even two would be. */
  function Kept(cells: seq<string>, columns: nat, gutter: int, viewport: int, declared: string -> int): (c: nat)
    requires columns > 0
    ensures 0 < c <= columns
  {
    if columns > 1 && Widest(Rows(cells, columns), gutter, declared) > viewport
    then Kept(cells, columns - 1, gutter, viewport, declared) else columns
  }

  function Layout(mark: char -> bool, names: seq<string>, viewport: int, measure: string -> int,
                  declared: string -> int): seq<seq<string>> {
    if names == [] then []
    else
      var cells := CellsOf(mark, names, ColumnWidth(names, measure), measure);
      Rows(cells, Kept(cells, ColumnCount(names, viewport, measure), Gutter(names, viewport, measure), viewport,
                       declared))
  }

  // ----- The loops

  method DeclaredRowWidth(row: seq<string>, gutter: int, declared: string -> int) returns (width: int)
    ensures width == RowWidth(row, gutter, declared)
  {
    width := 0;
    for i := 0 to |row|
      invariant width == Total(row[..i], declared)
    {
      assert row[..i + 1][..i] == row[..i];
      width := width + declared(row[i]);
    }
    assert row[..|row|] == row;
    width := width + gutter * (|row| - 1);
  }

  method WidestDeclaredRow(cells: seq<string>, columns: nat, gutter: int, declared: string -> int) returns (widest: int)
    requires columns > 0
    ensures widest == Widest(Rows(cells, columns), gutter, declared)
  {
    var start := 0;
    if cells == [] {
      return 0;
    }
    widest := 0;
    var first := true;
    while start < |cells|
      invariant start <= |cells| && (first ==> start == 0) && (start == |cells| ==> !first)
      invariant Widest(Rows(cells, columns), gutter, declared) ==
        if first then Widest(Rows(cells[start..], columns), gutter, declared)
        else if start == |cells| then widest
        else Max(widest, Widest(Rows(cells[start..], columns), gutter, declared))
    {
      var end := Min(start + columns, |cells|);
      RowsUnfold(cells, columns, start);
      var width := DeclaredRowWidth(cells[start..end], gutter, declared);
      widest := if first then width else Max(widest, width);
      first := false;
      start := end;
    }
  }

  lemma RowsUnfold(cells: seq<string>, columns: nat, start: nat)
    requires columns > 0 && start < |cells|
    ensures var end := Min(start + columns, |cells|);
      Rows(cells[start..], columns) == [cells[start..end]] + Rows(cells[end..], columns) &&
      (end == |cells| <==> Rows(cells[end..], columns) == [])
  {
    var end := Min(start + columns, |cells|);
    if |cells| - start <= columns {
      assert cells[start..end] == cells[start..];
    } else {
      assert cells[start..][..columns] == cells[start..end];
      assert cells[start..][columns..] == cells[end..];
    }
  }

  method LayOutPasses(mark: char -> bool, names: seq<string>, viewport: int, measure: string -> int,
                      declared: string -> int)
    returns (rows: seq<seq<string>>)
    ensures rows == Layout(mark, names, viewport, measure, declared)
  {
    if names == [] {
      return [];
    }
    var width := ColumnWidth(names, measure);
    var cells: seq<string> := [];
    for i := 0 to |names|
      invariant cells == CellsOf(mark, names[..i], width, measure)
    {
      var shown := TruncateToCells(mark, measure, names[i], width, MARKER);
      cells := cells + [Padded(shown, width, measure)];
    }
    assert names[..|names|] == names;
    var columns: nat := ColumnCount(names, viewport, measure);
    var gutter := Gutter(names, viewport, measure);
    ghost var asked := columns;
    while columns > 1
      invariant 0 < columns <= asked
      invariant Kept(cells, asked, gutter, viewport, declared) == Kept(cells, columns, gutter, viewport, declared)
    {
      var widest := WidestDeclaredRow(cells, columns, gutter, declared);
      if widest <= viewport {
        break;
      }
      columns := columns - 1;
    }
    rows := Rows(cells, columns);
  }

  // ----- The board holds every name, row by row

  function Flatten(rows: seq<seq<string>>): seq<string> {
    if rows == [] then [] else rows[0] + Flatten(rows[1..])
  }

  /** The rows in reading order are the cells, and every row but the last is full. */
  lemma {:induction false} RowsFlatten(cells: seq<string>, columns: nat)
    requires columns > 0
    ensures var rows := Rows(cells, columns);
      Flatten(rows) == cells &&
      (forall i :: 0 <= i < |rows| - 1 ==> |rows[i]| == columns) &&
      (forall i :: 0 <= i < |rows| ==> 0 < |rows[i]| <= columns)
    decreases |cells|
  {
    if |cells| > columns {
      RowsFlatten(cells[columns..], columns);
      var rows := Rows(cells, columns);
      assert rows[1..] == Rows(cells[columns..], columns);
      assert cells[columns..] != [];
      assert forall i :: 0 < i < |rows| ==> rows[i] == rows[1..][i - 1];
    } else if cells != [] {
      assert Flatten([cells]) == cells + Flatten([]);
    }
  }

  /** More columns than the loop kept are too wide, one count at a time. */
  lemma {:induction false} MoreIsTooWide(cells: seq<string>, columns: nat, gutter: int, viewport: int,
                                         declared: string -> int, more: nat)
    requires 0 < columns && Kept(cells, columns, gutter, viewport, declared) < more <= columns
    ensures Widest(Rows(cells, more), gutter, declared) > viewport
  {
    if more < columns {
      MoreIsTooWide(cells, columns - 1, gutter, viewport, declared, more);
    }
  }

  lemma {:induction false} KeptIsNotTooWide(cells: seq<string>, columns: nat, gutter: int, viewport: int,
                                            declared: string -> int)
    requires columns > 0
    ensures var c := Kept(cells, columns, gutter, viewport, declared);
      c > 1 ==> Widest(Rows(cells, c), gutter, declared) <= viewport
  {
    if columns > 1 && Widest(Rows(cells, columns), gutter, declared) > viewport {
      KeptIsNotTooWide(cells, columns - 1, gutter, viewport, declared);
    }
  }

  lemma KeptFits(cells: seq<string>, columns: nat, gutter: int, viewport: int, declared: string -> int)
    requires columns > 0
    ensures var c := Kept(cells, columns, gutter, viewport, declared);
      (c > 1 ==> Widest(Rows(cells, c), gutter, declared) <= viewport) &&
      forall more :: c < more <= columns ==> Widest(Rows(cells, more), gutter, declared) > viewport
  {
    KeptIsNotTooWide(cells, columns, gutter, viewport, declared);
    var c := Kept(cells, columns, gutter, viewport, declared);
    forall more | c < more <= columns ensures Widest(Rows(cells, more), gutter, declared) > viewport {
      MoreIsTooWide(cells, columns, gutter, viewport, declared, more);
    }
  }

  lemma {:induction false} NoneWider(rows: seq<seq<string>>, gutter: int, declared: string -> int, i: nat)
    requires i < |rows|
    ensures RowWidth(rows[i], gutter, declared) <= Widest(rows, gutter, declared)
  {
    if i > 0 {
      NoneWider(rows[1..], gutter, declared, i - 1);
    }
  }

  /** The board shows every name's cell in order, in full rows but the last, and on a board of several columns no row
      is declared wider than the viewport. */
  lemma BoardIsWhole(mark: char -> bool, names: seq<string>, viewport: int, measure: string -> int,
                     declared: string -> int)
    requires names != []
    ensures var rows := Layout(mark, names, viewport, measure, declared);
      rows != [] && Flatten(rows) == CellsOf(mark, names, ColumnWidth(names, measure), measure) &&
      (forall i :: 0 <= i < |rows| - 1 ==> |rows[i]| == |rows[0]|) &&
      (|rows[0]| > 1 ==> forall i :: 0 <= i < |rows| ==>
         RowWidth(rows[i], Gutter(names, viewport, measure), declared) <= viewport)
  {
    var cells := CellsOf(mark, names, ColumnWidth(names, measure), measure);
    var gutter := Gutter(names, viewport, measure);
    var count: nat := ColumnCount(names, viewport, measure);
    var c := Kept(cells, count, gutter, viewport, declared);
    var rows := Rows(cells, c);
    RowsFlatten(cells, c);
    KeptFits(cells, count, gutter, viewport, declared);
    assert |rows[0]| > 1 ==> c > 1;
    forall i | 0 <= i < |rows| && c > 1 ensures RowWidth(rows[i], gutter, declared) <= viewport {
      NoneWider(rows, gutter, declared, i);
    }
  }

  // ----- Even columns

  /** A space is one column wherever it follows. */
  ghost predicate SpacesAdd(measure: string -> int) {
    forall s: string, n: nat :: measure(s + Spaces(n)) == measure(s) + n
  }

  /** Every cell is exactly one column wide. */
  lemma CellsAreEven(mark: char -> bool, name: string, width: int, measure: string -> int)
    requires SpacesAdd(measure) && measure(MARKER) == 1 && measure("") == 0 && width >= 1
    ensures measure(CellFor(mark, name, width, measure)) == width
  {
    TruncatedFits(mark, measure, name, width, MARKER);
    var shown := Truncated(mark, measure, name, width, MARKER);
    assert measure(shown + Spaces(Max(0, width - measure(shown)))) == measure(shown) + (width - measure(shown));
  }

  lemma {:induction false} EvenTotal(row: seq<string>, width: int, declared: string -> int)
    requires forall i :: 0 <= i < |row| ==> declared(row[i]) == width
    ensures Total(row, declared) == |row| * width
  {
    if row != [] {
      EvenTotal(row[..|row| - 1], width, declared);
    }
  }

  lemma GutterFits(columns: int, width: int, viewport: int)
    requires columns >= 2 && columns * (width + COLUMN_GUTTER) <= viewport + COLUMN_GUTTER
    ensures GutterFor(columns, width, viewport) * (columns - 1) <= viewport - columns * width
  {
    var g, spare := GutterFor(columns, width, viewport), viewport - columns * width;
    assert columns * (width + COLUMN_GUTTER) == columns * width + columns * COLUMN_GUTTER;
    if g > COLUMN_GUTTER {
      DivisionBelow(g, spare, columns - 1);
    }
  }

  lemma ColumnsFit(columns: int, width: int, viewport: int, k: int)
    requires width >= 1 && columns >= 2 && 1 <= k <= columns
    requires columns <= (viewport + COLUMN_GUTTER) / (width + COLUMN_GUTTER)
    ensures k * width + GutterFor(columns, width, viewport) * (k - 1) <= viewport
  {
    DivisionBelow(columns, viewport + COLUMN_GUTTER, width + COLUMN_GUTTER);
    GutterFits(columns, width, viewport);
    FewerIsNarrower(k, columns, width, GutterFor(columns, width, viewport));
  }

  lemma DivisionBelow(q: int, a: int, b: int)
    requires b > 0 && q <= a / b
    ensures q * b <= a
  {
    assert a == (a / b) * b + a % b;
    assert q * b <= (a / b) * b;
  }

  lemma FewerIsNarrower(k: int, columns: int, width: int, g: int)
    requires 1 <= k <= columns && width >= 0 && g >= 0
    ensures k * width + g * (k - 1) <= columns * width + g * (columns - 1)
  {
    assert k * width <= columns * width;
    assert g * (k - 1) <= g * (columns - 1);
  }

  lemma {:induction false} WidestBelow(rows: seq<seq<string>>, gutter: int, declared: string -> int, bound: int)
    requires rows != []
    requires forall i :: 0 <= i < |rows| ==> RowWidth(rows[i], gutter, declared) <= bound
    ensures Widest(rows, gutter, declared) <= bound
  {
    if |rows| > 1 {
      forall i | 0 <= i < |rows[1..]| ensures RowWidth(rows[1..][i], gutter, declared) <= bound {
        assert rows[1..][i] == rows[i + 1];
      }
      WidestBelow(rows[1..], gutter, declared, bound);
    }
  }

  lemma {:induction false} InFlatten(rows: seq<seq<string>>, i: nat, j: nat)
    requires i < |rows| && j < |rows[i]|
    ensures rows[i][j] in Flatten(rows)
  {
    if i > 0 {
      InFlatten(rows[1..], i - 1, j);
    }
  }

  /** When text is drawn as wide as it is declared, no column is ever dropped. */
  lemma NoColumnIsDropped(mark: char -> bool, names: seq<string>, viewport: int, measure: string -> int)
    requires names != [] && SpacesAdd(measure) && measure(MARKER) == 1 && measure("") == 0
    ensures var cells := CellsOf(mark, names, ColumnWidth(names, measure), measure);
      Kept(cells, ColumnCount(names, viewport, measure), Gutter(names, viewport, measure), viewport, measure) ==
      ColumnCount(names, viewport, measure)
  {
    var width := ColumnWidth(names, measure);
    var cells := CellsOf(mark, names, width, measure);
    var columns: nat := ColumnCount(names, viewport, measure);
    var gutter := Gutter(names, viewport, measure);
    if columns > 1 {
      var rows := Rows(cells, columns);
      RowsFlatten(cells, columns);
      forall i | 0 <= i < |rows| ensures RowWidth(rows[i], gutter, measure) <= viewport {
        forall j | 0 <= j < |rows[i]| ensures measure(rows[i][j]) == width {
          InFlatten(rows, i, j);
          var k :| 0 <= k < |cells| && cells[k] == rows[i][j];
          CellsAreEven(mark, names[k], width, measure);
        }
        EvenTotal(rows[i], width, measure);
        ColumnsFit(columns, width, viewport, |rows[i]|);
      }
      WidestBelow(rows, gutter, measure, viewport);
    }
  }

  // ----- The column suits most names

  function Over(widths: seq<int>, limit: int): (n: nat)
    ensures n <= |widths|
  {
    if widths == [] then 0 else (if widths[0] > limit then 1 else 0) + Over(widths[1..], limit)
  }

  lemma {:induction false} OverOfSorted(widths: seq<int>, k: nat)
    requires k < |widths| && forall i, j :: 0 <= i < j < |widths| ==> widths[i] <= widths[j]
    ensures Over(widths, widths[k]) <= |widths| - 1 - k
  {
    if k > 0 {
      OverOfSorted(widths[1..], k - 1);
    }
  }

  lemma {:induction false} OverInsert(x: int, widths: seq<int>, limit: int)
    ensures Over(Insert(x, widths, AtMost()), limit) == Over(widths, limit) + (if x > limit then 1 else 0)
  {
    var after := Insert(x, widths, AtMost());
    if widths == [] || AtMost()(x, widths[0]) {
      assert after[1..] == widths;
    } else {
      OverInsert(x, widths[1..], limit);
      assert after[1..] == Insert(x, widths[1..], AtMost());
    }
  }

  lemma {:induction false} OverSort(widths: seq<int>, limit: int)
    ensures Over(Sort(widths, AtMost()), limit) == Over(widths, limit)
  {
    if widths != [] {
      OverSort(widths[1..], limit);
      OverInsert(widths[0], Sort(widths[1..], AtMost()), limit);
    }
  }

  /** Unless the cap cuts in, at most a tenth of the names are too wide for the column. */
  lemma FewNamesAreCut(names: seq<string>, measure: string -> int)
    requires names != []
    ensures ColumnWidth(names, measure) < NAME_MAX_CELLS ==>
            Over(Widths(names, measure), ColumnWidth(names, measure)) * 10 <= |names|
  {
    var widths := Widths(names, measure);
    var sorted := Sort(widths, AtMost());
    SortPermutes(widths, AtMost());
    SortSorted(widths, AtMost());
    var k := Typical(|names|);
    assert forall i, j :: 0 <= i < j < |sorted| ==> AtMost()(sorted[i], sorted[j]);
    OverOfSorted(sorted, k);
    OverSort(widths, sorted[k]);
    OverLess(widths, sorted[k], Max(1, sorted[k]));
  }

  lemma {:induction false} OverLess(widths: seq<int>, low: int, high: int)
    requires low <= high
    ensures Over(widths, high) <= Over(widths, low)
  {
    if widths != [] {
      OverLess(widths[1..], low, high);
    }
  }

  lemma {:induction false} OverFrom(widths: seq<int>, k: nat, limit: int)
    requires k <= |widths| && forall j :: k <= j < |widths| ==> widths[j] > limit
    ensures Over(widths, limit) >= |widths| - k
  {
    if widths != [] {
      OverFrom(widths[1..], if k > 0 then k - 1 else 0, limit);
    }
  }

  /** From the typical place on, at least a tenth of the sorted widths remains. */
  lemma TenthRemains(sorted: seq<int>, limit: int)
    requires sorted != [] && sorted[Typical(|sorted|)] > limit
    requires forall i, j :: 0 <= i < j < |sorted| ==> sorted[i] <= sorted[j]
    ensures Over(sorted, limit) * 10 >= |sorted|
  {
    OverFrom(sorted, Typical(|sorted|), limit);
  }

  lemma SortedWidths(names: seq<string>, measure: string -> int) returns (sorted: seq<int>)
    requires names != []
    ensures |sorted| == |names| && sorted == Sort(Widths(names, measure), AtMost())
    ensures forall i, j :: 0 <= i < j < |sorted| ==> sorted[i] <= sorted[j]
    ensures sorted[Typical(|names|)] == TypicalWidth(names, measure)
  {
    var widths := Widths(names, measure);
    sorted := Sort(widths, AtMost());
    SortPermutes(widths, AtMost());
    SortSorted(widths, AtMost());
    assert forall i, j :: 0 <= i < j < |sorted| ==> AtMost()(sorted[i], sorted[j]);
  }

  /** The column is 1 to 16 cells wide; a narrower one would be too narrow for at least a tenth of the names. */
  lemma ColumnIsNoWiderThanNeeded(names: seq<string>, measure: string -> int)
    ensures var width := ColumnWidth(names, measure);
      1 <= width <= 16 && (width > 1 ==> Over(Widths(names, measure), width - 1) * 10 >= |names|)
  {
    var width := ColumnWidth(names, measure);
    if width > 1 {
      var sorted := SortedWidths(names, measure);
      TenthRemains(sorted, width - 1);
      OverSort(Widths(names, measure), width - 1);
    }
  }

  // ----- As many columns as fit

  lemma DivisionExact(q: int, a: int, b: int)
    requires b > 0 && q == a / b
    ensures q * b <= a < (q + 1) * b
  {
    assert a == q * b + a % b;
    assert (q + 1) * b == q * b + b;
  }

  lemma Apart(columns: int, width: int, gutter: int)
    ensures columns * width + gutter * (columns - 1) == columns * (width + gutter) - gutter
  {
  }

  /** One column more than the board asks for would still fit at a gutter of 4, two more would not. */
  lemma OneColumnIsReserved(names: seq<string>, viewport: int, measure: string -> int)
    ensures var columns, width := ColumnCount(names, viewport, measure), ColumnWidth(names, measure);
      && columns >= 1
      && (columns > 1 ==> (columns + 1) * width + 4 * columns <= viewport)
      && (columns + 2) * width + 4 * (columns + 1) > viewport
  {
    var columns, width := ColumnCount(names, viewport, measure), ColumnWidth(names, measure);
    var fit := (viewport + COLUMN_GUTTER) / (width + COLUMN_GUTTER);
    DivisionExact(fit, viewport + COLUMN_GUTTER, width + COLUMN_GUTTER);
    Apart(columns + 1, width, 4);
    Apart(columns + 2, width, 4);
    if columns > 1 {
      assert columns + 1 == fit;
    } else {
      assert (columns + 2) * (width + 4) == 3 * (width + 4);
      assert viewport < width || fit <= 2;
      if fit <= 2 {
        assert (fit + 1) * (width + 4) <= 3 * (width + 4);
      }
    }
  }

  lemma NoFewer(few: int, many: int, each: int)
    requires each >= 0
    ensures few <= many ==> few * each <= many * each
  {
    if few <= many {
      assert (many - few) * each >= 0;
    }
  }

  lemma GutterIsExact(columns: int, width: int, viewport: int)
    requires columns > 1 && columns * width + 4 * (columns - 1) <= viewport
    ensures var gutter := GutterFor(columns, width, viewport);
      && 4 <= gutter <= 8
      && gutter * (columns - 1) <= viewport - columns * width
      && (gutter < 8 ==> (gutter + 1) * (columns - 1) > viewport - columns * width)
  {
    var gutter, spare := GutterFor(columns, width, viewport), viewport - columns * width;
    var most := spare / (columns - 1);
    DivisionExact(most, spare, columns - 1);
    NoFewer(most + 1, 4, columns - 1);
    NoFewer(gutter, most, columns - 1);
  }

  /** The space left over goes between the columns, evenly, as far as 8 cells each. */
  lemma GutterTakesTheRest(names: seq<string>, viewport: int, measure: string -> int)
    ensures var columns, width := ColumnCount(names, viewport, measure), ColumnWidth(names, measure);
      var gutter := Gutter(names, viewport, measure);
      && 4 <= gutter <= 8
      && (columns == 1 ==> gutter == 4)
      && (columns > 1 ==> columns * width + gutter * (columns - 1) <= viewport)
      && (columns > 1 && gutter < 8 ==> columns * width + (gutter + 1) * (columns - 1) > viewport)
  {
    var columns, width := ColumnCount(names, viewport, measure), ColumnWidth(names, measure);
    OneColumnIsReserved(names, viewport, measure);
    if columns > 1 {
      OneFewer(columns, width, viewport);
      GutterIsExact(columns, width, viewport);
    }
  }

  lemma OneFewer(columns: int, width: int, viewport: int)
    requires width >= 1 && (columns + 1) * width + 4 * columns <= viewport
    ensures columns * width + 4 * (columns - 1) <= viewport
  {
    assert (columns + 1) * width == columns * width + width;
  }
}
