/** Grapheme clusters: a left-to-right automaton, and what is cut or merged along its boundaries. `mark` says which
    code points are combining marks; `measure` says how many cells a text takes. */
module Grapheme {
  import opened Common

  const ZERO_WIDTH_JOINER: char := '\U{200D}'

  predicate VariationSelector(c: char) {
    c == '\U{FE0E}' || c == '\U{FE0F}'
  }

  predicate EmojiModifier(c: char) {
    '\U{1F3FB}' <= c <= '\U{1F3FF}'
  }

  predicate RegionalIndicator(c: char) {
    '\U{1F1E6}' <= c <= '\U{1F1FF}'
  }

  predicate Attaches(mark: char -> bool, c: char, previous: string, joinNext: bool) {
    joinNext || c == ZERO_WIDTH_JOINER || VariationSelector(c) || EmojiModifier(c) || mark(c) ||
    (|previous| == 1 && RegionalIndicator(previous[0]) && RegionalIndicator(c))
  }

  /** Whether the last code point asks the next one to stay. */
  predicate JoinsNext(s: string) {
    s != [] && s[|s| - 1] == ZERO_WIDTH_JOINER
  }

  function Last(clusters: seq<string>): string {
    if clusters == [] then "" else clusters[|clusters| - 1]
  }

  /** One step of the automaton. */
  function Extend(mark: char -> bool, clusters: seq<string>, c: char, joinNext: bool): seq<string> {
    if clusters != [] && Attaches(mark, c, Last(clusters), joinNext)
    then clusters[..|clusters| - 1] + [Last(clusters) + [c]]
    else clusters + [[c]]
  }

  function Clusters(mark: char -> bool, s: string): seq<string> {
    if s == [] then []
    else Extend(mark, Clusters(mark, s[..|s| - 1]), s[|s| - 1], JoinsNext(s[..|s| - 1]))
  }

  function Concat(clusters: seq<string>): string {
    if clusters == [] then "" else Concat(clusters[..|clusters| - 1]) + clusters[|clusters| - 1]
  }

  method GraphemeClusters(mark: char -> bool, value: string) returns (clusters: seq<string>)
    ensures clusters == Clusters(mark, value)
  {
    clusters := [];
    var joinNext := false;
    for i := 0 to |value|
      invariant clusters == Clusters(mark, value[..i]) && joinNext == JoinsNext(value[..i])
    {
      var c := value[i];
      assert value[..i + 1][..i] == value[..i];
      var previous := Last(clusters);
      if clusters != [] && Attaches(mark, c, previous, joinNext) {
        clusters := clusters[|clusters| - 1 := previous + [c]];
        assert clusters == clusters[..|clusters| - 1] + [previous + [c]];
      } else {
        clusters := clusters + [[c]];
      }
      joinNext := c == ZERO_WIDTH_JOINER;
    }
    assert value[..|value|] == value;
  }

  // ----- Clusters partition the text

  ghost predicate NoneEmpty(clusters: seq<string>) {
    forall i :: 0 <= i < |clusters| ==> clusters[i] != ""
  }

  /** The clusters are non-empty and, put together, are the text. */
  lemma {:induction false} ClustersPartition(mark: char -> bool, s: string)
    ensures Concat(Clusters(mark, s)) == s && NoneEmpty(Clusters(mark, s))
    ensures s != [] ==> Clusters(mark, s) != []
  {
    if s != [] {
      var front, c := s[..|s| - 1], s[|s| - 1];
      ClustersPartition(mark, front);
      PartitionNext(mark, s, front, c);
    }
  }

  lemma PartitionNext(mark: char -> bool, s: string, front: string, c: char)
    requires s != [] && front == s[..|s| - 1] && c == s[|s| - 1]
    requires Concat(Clusters(mark, front)) == front && NoneEmpty(Clusters(mark, front))
    ensures Concat(Clusters(mark, s)) == s && NoneEmpty(Clusters(mark, s)) && Clusters(mark, s) != []
  {
    ExtendConcat(mark, Clusters(mark, front), c, JoinsNext(front));
    assert s == front + [c];
  }

  lemma ExtendConcat(mark: char -> bool, clusters: seq<string>, c: char, joinNext: bool)
    ensures var after := Extend(mark, clusters, c, joinNext);
      Concat(after) == Concat(clusters) + [c] && after != [] && (NoneEmpty(clusters) ==> NoneEmpty(after))
  {
    if clusters != [] && Attaches(mark, c, Last(clusters), joinNext) {
      var front, last := clusters[..|clusters| - 1], Last(clusters);
      ConcatSnoc(front, last + [c]);
      assert clusters == front + [last];
      ConcatSnoc(front, last);
    } else {
      ConcatSnoc(clusters, [c]);
    }
  }

  lemma ConcatSnoc(clusters: seq<string>, last: string)
    ensures Concat(clusters + [last]) == Concat(clusters) + last
  {
    assert (clusters + [last])[..|clusters|] == clusters;
  }

  // ----- Cutting at a boundary

  /** No code point is glued across position `i`. */
  predicate Boundary(mark: char -> bool, s: string, i: nat)
    requires i <= |s|
  {
    i == 0 || i == |s| || !Attaches(mark, s[i], Last(Clusters(mark, s[..i])), JoinsNext(s[..i]))
  }

  lemma {:induction false} CutClusters(mark: char -> bool, a: string, b: string)
    requires Boundary(mark, a + b, |a|)
    ensures Clusters(mark, a + b) == Clusters(mark, a) + Clusters(mark, b)
  {
    if b == [] {
      assert a + b == a;
    } else if a == [] {
      assert a + b == b;
    } else {
      var front, c := b[..|b| - 1], b[|b| - 1];
      BoundaryOfFront(mark, a, front, c);
      assert b == front + [c];
      CutClusters(mark, a, front);
      CutNext(mark, a, front, c);
    }
  }

  lemma BoundaryOfFront(mark: char -> bool, a: string, front: string, c: char)
    requires a != [] && Boundary(mark, a + (front + [c]), |a|)
    ensures Boundary(mark, a + front, |a|)
    ensures front == [] ==> !Attaches(mark, c, Last(Clusters(mark, a)), JoinsNext(a))
  {
    assert (a + (front + [c]))[..|a|] == a == (a + front)[..|a|];
  }

  lemma CutNext(mark: char -> bool, a: string, front: string, c: char)
    requires a != [] && Clusters(mark, a + front) == Clusters(mark, a) + Clusters(mark, front)
    requires front == [] ==> !Attaches(mark, c, Last(Clusters(mark, a)), JoinsNext(a))
    ensures Clusters(mark, a + (front + [c])) == Clusters(mark, a) + Clusters(mark, front + [c])
  {
    CutStep(mark, a, front, c);
    assert a + (front + [c]) == (a + front) + [c];
    ClustersSnoc(mark, a + front, c);
    ClustersSnoc(mark, front, c);
  }

  lemma ClustersSnoc(mark: char -> bool, s: string, c: char)
    ensures Clusters(mark, s + [c]) == Extend(mark, Clusters(mark, s), c, JoinsNext(s))
  {
    assert (s + [c])[..|s|] == s;
  }

  lemma CutStep(mark: char -> bool, a: string, front: string, c: char)
    requires a != [] && Clusters(mark, a + front) == Clusters(mark, a) + Clusters(mark, front)
    requires front == [] ==> !Attaches(mark, c, Last(Clusters(mark, a)), JoinsNext(a))
    ensures Extend(mark, Clusters(mark, a + front), c, JoinsNext(a + front)) ==
            Clusters(mark, a) + Extend(mark, Clusters(mark, front), c, JoinsNext(front))
  {
    ClustersPartition(mark, front);
    if front == [] {
      assert a + front == a;
    } else {
      assert JoinsNext(a + front) == JoinsNext(front);
      ExtendAfter(mark, Clusters(mark, a), Clusters(mark, front), c, JoinsNext(front));
    }
  }

  /** The automaton looks at the last cluster only. */
  lemma ExtendAfter(mark: char -> bool, x: seq<string>, y: seq<string>, c: char, joinNext: bool)
    requires y != []
    ensures Extend(mark, x + y, c, joinNext) == x + Extend(mark, y, c, joinNext)
  {
    assert Last(x + y) == Last(y);
    assert (x + y)[..|x + y| - 1] == x + y[..|y| - 1];
  }

  /** Every cluster end is a boundary, and the clusters before it are those of the text before it. */
  lemma {:induction false} ClusterEndsAreBoundaries(mark: char -> bool, s: string, k: nat)
    requires k <= |Clusters(mark, s)|
    ensures var i := |Concat(Clusters(mark, s)[..k])|;
      i <= |s| && s[..i] == Concat(Clusters(mark, s)[..k]) &&
      Boundary(mark, s, i) && Clusters(mark, s[..i]) == Clusters(mark, s)[..k]
  {
    var cs := Clusters(mark, s);
    ClustersPartition(mark, s);
    if k == |cs| {
      assert cs[..k] == cs && s[..|s|] == s;
    } else {
      var front, c := s[..|s| - 1], s[|s| - 1];
      var before := Clusters(mark, front);
      ExtendKeepsPrefix(mark, before, c, JoinsNext(front), k);
      ClusterEndsAreBoundaries(mark, front, k);
      var i := |Concat(before[..k])|;
      assert s[..i] == front[..i];
      if k < |before| {
        ShortPrefix(mark, front, k);
        assert s[i] == front[i];
      } else {
        assert before[..k] == before;
        ClustersPartition(mark, front);
      }
    }
  }

  lemma ExtendKeepsPrefix(mark: char -> bool, before: seq<string>, c: char, joinNext: bool, k: nat)
    requires k < |Extend(mark, before, c, joinNext)|
    ensures k <= |before| && Extend(mark, before, c, joinNext)[..k] == before[..k]
    ensures k == |before| ==> before == [] || !Attaches(mark, c, Last(before), joinNext)
  {
  }

  lemma ShortPrefix(mark: char -> bool, s: string, k: nat)
    requires k < |Clusters(mark, s)|
    ensures |Concat(Clusters(mark, s)[..k])| < |s|
  {
    ClustersPartition(mark, s);
    ConcatGrows(Clusters(mark, s), k);
  }

  lemma {:induction false} ConcatGrows(cs: seq<string>, k: nat)
    requires k < |cs| && NoneEmpty(cs)
    ensures |Concat(cs[..k])| < |Concat(cs)|
  {
    var front := cs[..|cs| - 1];
    if k < |front| {
      ConcatGrows(front, k);
      assert front[..k] == cs[..k];
    } else {
      assert cs[..k] == front;
    }
  }

  /** Cutting between two clusters and clustering the halves again gives back the very same clusters. */
  lemma RecutGivesSameClusters(mark: char -> bool, s: string, k: nat)
    requires k <= |Clusters(mark, s)|
    ensures var cs := Clusters(mark, s); var i := |Concat(cs[..k])|;
      i <= |s| && s[..i] == Concat(cs[..k]) && Clusters(mark, s[..i]) == cs[..k] && Clusters(mark, s[i..]) == cs[k..]
  {
    ClusterEndsAreBoundaries(mark, s, k);
    var i := |Concat(Clusters(mark, s)[..k])|;
    CutAt(mark, s, i);
    BackOf(Clusters(mark, s), k, Clusters(mark, s[i..]));
  }

  lemma CutAt(mark: char -> bool, s: string, i: nat)
    requires i <= |s| && Boundary(mark, s, i)
    ensures Clusters(mark, s) == Clusters(mark, s[..i]) + Clusters(mark, s[i..])
  {
    assert s == s[..i] + s[i..];
    CutClusters(mark, s[..i], s[i..]);
  }

  lemma BackOf(cs: seq<string>, k: nat, back: seq<string>)
    requires k <= |cs| && cs == cs[..k] + back
    ensures back == cs[k..]
  {
    assert (cs[..k] + back)[k..] == back;
  }

  // ----- Truncation

  /** Python's `marker[:width]`. */
  function Head(marker: string, width: int): string {
    if width >= 0 then marker[..Min(width, |marker|)] else marker[..Max(0, |marker| + width)]
  }

  /** How many whole clusters, from `k` on, still leave room for the marker. */
  function Fitting(measure: string -> int, cs: seq<string>, width: int, marker: string, k: nat): (n: nat)
    requires k <= |cs|
    ensures k <= n <= |cs|
    decreases |cs| - k
  {
    if k == |cs| || measure(Concat(cs[..k]) + cs[k] + marker) > width then k
    else Fitting(measure, cs, width, marker, k + 1)
  }

  function Truncated(mark: char -> bool, measure: string -> int, value: string, width: int, marker: string): string {
    if measure(value) <= width then value
    else if width <= measure(marker) then Head(marker, width)
    else
      var cs := Clusters(mark, value);
      Concat(cs[..Fitting(measure, cs, width, marker, 0)]) + marker
  }

  method TruncateToCells(mark: char -> bool, measure: string -> int, value: string, width: int, marker: string)
    returns (shown: string)
    ensures shown == Truncated(mark, measure, value, width, marker)
  {
    if measure(value) <= width {
      return value;
    }
    if width <= measure(marker) {
      return Head(marker, width);
    }
    var visible := "";
    var clusters := GraphemeClusters(mark, value);
    var k := 0;
    while k < |clusters|
      invariant k <= |clusters| && visible == Concat(clusters[..k])
      invariant Fitting(measure, clusters, width, marker, 0) == Fitting(measure, clusters, width, marker, k)
    {
      if measure(visible + clusters[k] + marker) > width {
        break;
      }
      assert clusters[..k + 1][..k] == clusters[..k];
      visible := visible + clusters[k];
      k := k + 1;
    }
    return visible + marker;
  }

  lemma {:induction false} FittingFits(measure: string -> int, cs: seq<string>, width: int, marker: string, k: nat)
    requires k <= |cs| && measure(Concat(cs[..k]) + marker) <= width
    ensures var n := Fitting(measure, cs, width, marker, k);
      measure(Concat(cs[..n]) + marker) <= width &&
      (n < |cs| ==> measure(Concat(cs[..n]) + cs[n] + marker) > width)
    decreases |cs| - k
  {
    if k < |cs| && measure(Concat(cs[..k]) + cs[k] + marker) <= width {
      assert cs[..k + 1][..k] == cs[..k];
      FittingFits(measure, cs, width, marker, k + 1);
    }
  }

  /** With a one-cell marker a truncated text is never wider than asked for. What is kept is a run of whole clusters
      from the start, which cluster by themselves as they did in the text, and one more would not have fitted. */
  lemma TruncatedFits(mark: char -> bool, measure: string -> int, value: string, width: nat, marker: string)
    requires |marker| == 1 && measure(marker) == 1 && measure("") == 0
    ensures var shown := Truncated(mark, measure, value, width, marker);
      measure(shown) <= width &&
      (measure(value) > width > 1 ==>
         exists k :: 0 <= k <= |Clusters(mark, value)| && shown == Concat(Clusters(mark, value)[..k]) + marker &&
           Clusters(mark, Concat(Clusters(mark, value)[..k])) == Clusters(mark, value)[..k] &&
           (k < |Clusters(mark, value)| ==>
             measure(Concat(Clusters(mark, value)[..k]) + Clusters(mark, value)[k] + marker) > width))
  {
    var cs := Clusters(mark, value);
    if measure(value) > width {
      if width > 1 {
        assert Concat(cs[..0]) + marker == marker;
        FittingFits(measure, cs, width, marker, 0);
        ClusterEndsAreBoundaries(mark, value, Fitting(measure, cs, width, marker, 0));
      } else {
        assert marker[..0] == "" && marker[..1] == marker;
      }
    }
  }

  // ----- Flag pairs

  datatype Span = Span(start: nat, end: nat, cells: int)

  /** The spans follow each other without a gap from `start` to `end`. */
  predicate Covers(spans: seq<Span>, start: nat, end: nat) {
    if spans == [] then start == end
    else spans[0].start == start && start < spans[0].end && Covers(spans[1..], spans[0].end, end)
  }

  function Cells(spans: seq<Span>): int {
    if spans == [] then 0 else spans[0].cells + Cells(spans[1..])
  }

  predicate SingleIndicator(text: string, s: Span) {
    s.end - s.start == 1 && s.start < |text| && RegionalIndicator(text[s.start])
  }

  function Merge(text: string, spans: seq<Span>): seq<Span> {
    if |spans| < 2 then spans
    else if SingleIndicator(text, spans[0]) && SingleIndicator(text, spans[1])
    then [Joined(spans[0], spans[1])] + Merge(text, spans[2..])
    else [spans[0]] + Merge(text, spans[1..])
  }

  predicate FlagAt(text: string, spans: seq<Span>, index: nat) {
    index + 1 < |spans| && SingleIndicator(text, spans[index]) && SingleIndicator(text, spans[index + 1])
  }

  function Joined(s: Span, t: Span): Span {
    Span(s.start, t.end, s.cells + t.cells)
  }

  lemma MergePair(text: string, spans: seq<Span>, index: nat)
    requires FlagAt(text, spans, index)
    ensures Merge(text, spans[index..]) == [Joined(spans[index], spans[index + 1])] + Merge(text, spans[index + 2..])
  {
    assert spans[index..][2..] == spans[index + 2..];
  }

  lemma MergeSingle(text: string, spans: seq<Span>, index: nat)
    requires index < |spans| && !FlagAt(text, spans, index)
    ensures Merge(text, spans[index..]) == [spans[index]] + Merge(text, spans[index + 1..])
  {
    assert spans[index..][1..] == spans[index + 1..];
  }

  lemma StillMerged(whole: seq<Span>, merged: seq<Span>, next: Span, rest: seq<Span>)
    requires whole == merged + ([next] + rest)
    ensures whole == (merged + [next]) + rest
  {
  }

  method MergeRegionalIndicatorSpans(spans: seq<Span>, text: string) returns (merged: seq<Span>)
    ensures merged == Merge(text, spans)
  {
    merged := [];
    var index := 0;
    ghost var whole := Merge(text, spans);
    assert spans[0..] == spans;
    while index < |spans|
      invariant index <= |spans|
      invariant whole == merged + Merge(text, spans[index..])
    {
      if FlagAt(text, spans, index) {
        MergePair(text, spans, index);
        StillMerged(whole, merged, Joined(spans[index], spans[index + 1]), Merge(text, spans[index + 2..]));
        merged := merged + [Joined(spans[index], spans[index + 1])];
        index := index + 2;
      } else {
        MergeSingle(text, spans, index);
        StillMerged(whole, merged, spans[index], Merge(text, spans[index + 1..]));
        merged := merged + [spans[index]];
        index := index + 1;
      }
    }
  }

  ghost predicate NoAdjacentPair(text: string, spans: seq<Span>) {
    forall i, j :: 0 <= i < |spans| && j == i + 1 && j < |spans| ==>
      !(SingleIndicator(text, spans[i]) && SingleIndicator(text, spans[j]))
  }

  /** Merging keeps the partition and the width, and leaves no flag in two halves. */
  lemma {:induction false} MergeKeepsPartition(text: string, spans: seq<Span>, start: nat, end: nat)
    requires Covers(spans, start, end)
    ensures var merged := Merge(text, spans);
      Covers(merged, start, end) && Cells(merged) == Cells(spans) && NoAdjacentPair(text, merged) &&
      (merged != [] ==> spans != [] && (merged[0] == spans[0] || !SingleIndicator(text, merged[0])))
    decreases |spans|
  {
    var merged := Merge(text, spans);
    if |spans| >= 2 {
      if SingleIndicator(text, spans[0]) && SingleIndicator(text, spans[1]) {
        assert spans[1..][1..] == spans[2..];
        MergeKeepsPartition(text, spans[2..], spans[1].end, end);
        assert merged[1..] == Merge(text, spans[2..]);
      } else {
        MergeKeepsPartition(text, spans[1..], spans[0].end, end);
        assert merged[1..] == Merge(text, spans[1..]);
      }
      NoPairInFront(text, merged);
    }
  }

  lemma NoPairInFront(text: string, merged: seq<Span>)
    requires merged != [] && NoAdjacentPair(text, merged[1..])
    requires |merged| > 1 ==> !(SingleIndicator(text, merged[0]) && SingleIndicator(text, merged[1]))
    ensures NoAdjacentPair(text, merged)
  {
    forall i, j | 0 <= i < |merged| && j == i + 1 && j < |merged|
      ensures !(SingleIndicator(text, merged[i]) && SingleIndicator(text, merged[j]))
    {
      if i > 0 {
        assert merged[1..][i - 1] == merged[i] && merged[1..][j - 1] == merged[j];
      }
    }
  }
}
