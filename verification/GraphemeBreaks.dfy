/** Where grapheme clusters begin, without the automaton: two code points stay together because of the second one,
    because of a joiner before it, or because they are the two halves of a flag. */
module GraphemeBreaks {
  import opened Grapheme

  predicate Joiner(c: char) {
    c as int == 0x200D
  }

  predicate Flag(c: char) {
    0x1F1E6 <= c as int <= 0x1F1FF
  }

  /** Stays with whatever is before it. */
  predicate Clings(mark: char -> bool, c: char) {
    Joiner(c) || c as int == 0xFE0E || c as int == 0xFE0F || 0x1F3FB <= c as int <= 0x1F3FF || mark(c)
  }

  /** No combining mark is half a flag. */
  ghost predicate MarksAreNoFlags(mark: char -> bool) {
    forall c :: Flag(c) ==> !mark(c)
  }

  /** How many halves of flags the text ends with. */
  function FlagsAtEnd(s: string): (n: nat)
    ensures n <= |s|
  {
    if s == "" || !Flag(s[|s| - 1]) then 0 else 1 + FlagsAtEnd(s[..|s| - 1])
  }

  /** A joiner before the flags takes their first half. */
  function FreeFlags(s: string): int {
    var n := FlagsAtEnd(s);
    if 0 < n < |s| && Joiner(s[|s| - n - 1]) then n - 1 else n
  }

  lemma FlagsNext(s: string)
    requires s != "" && Flag(s[|s| - 1])
    ensures var front := s[..|s| - 1];
      FreeFlags(s) == if front != "" && Joiner(front[|front| - 1]) then 0 else FreeFlags(front) + 1
  {
    var front := s[..|s| - 1];
    var n := FlagsAtEnd(front);
    if n == 0 {
      assert FlagsAtEnd(s) == 1;
    } else {
      assert !Joiner(front[|front| - 1]);
    }
  }

  ghost predicate LoneFlag(cluster: string) {
    |cluster| == 1 && Flag(cluster[0])
  }

  lemma {:induction false} LastIsLone(mark: char -> bool, s: string)
    requires MarksAreNoFlags(mark)
    ensures LoneFlag(Last(Clusters(mark, s))) <==> FreeFlags(s) % 2 == 1
  {
    if s != "" {
      var front := s[..|s| - 1];
      LastIsLone(mark, front);
      ClustersPartition(mark, front);
      LoneNext(mark, s, front, Clusters(mark, front), Clusters(mark, s));
    }
  }

  lemma LoneNext(mark: char -> bool, s: string, front: string, before: seq<string>, after: seq<string>)
    requires MarksAreNoFlags(mark) && s != "" && front == s[..|s| - 1]
    requires NoneEmpty(before) && (front != "" ==> before != [])
    requires after == Extend(mark, before, s[|s| - 1], JoinsNext(front))
    requires LoneFlag(Last(before)) <==> FreeFlags(front) % 2 == 1
    ensures LoneFlag(Last(after)) <==> FreeFlags(s) % 2 == 1
  {
    var c := s[|s| - 1];
    if Flag(c) {
      FlagsNext(s);
      FlagNext(mark, front, before, c, FreeFlags(front));
    } else {
      assert FreeFlags(s) == 0;
    }
  }

  lemma FlagNext(mark: char -> bool, front: string, before: seq<string>, c: char, free: int)
    requires MarksAreNoFlags(mark) && Flag(c) && NoneEmpty(before) && (front != "" ==> before != [])
    requires LoneFlag(Last(before)) <==> free % 2 == 1
    ensures LoneFlag(Last(Extend(mark, before, c, JoinsNext(front)))) <==> !JoinsNext(front) && free % 2 == 0
  {
    assert Attaches(mark, c, Last(before), JoinsNext(front)) <==> JoinsNext(front) || LoneFlag(Last(before));
  }

  /** Whether the code point at `i` stays with the one before it. */
  ghost predicate Together(mark: char -> bool, s: string, i: nat)
    requires 0 < i < |s|
  {
    Joiner(s[i - 1]) || Clings(mark, s[i]) || (Flag(s[i]) && FreeFlags(s[..i]) % 2 == 1)
  }

  ghost predicate EndsAt(clusters: seq<string>, i: nat) {
    exists k :: 0 <= k <= |clusters| && |Concat(clusters[..k])| == i
  }

  lemma BoundaryExactly(mark: char -> bool, s: string, i: nat)
    requires MarksAreNoFlags(mark) && 0 < i < |s|
    ensures Boundary(mark, s, i) <==> !Together(mark, s, i)
  {
    LastIsLone(mark, s[..i]);
    var previous := Last(Clusters(mark, s[..i]));
    assert JoinsNext(s[..i]) <==> Joiner(s[i - 1]);
    assert Attaches(mark, s[i], previous, JoinsNext(s[..i])) <==>
           JoinsNext(s[..i]) || Clings(mark, s[i]) || (LoneFlag(previous) && Flag(s[i]));
  }

  /** A cluster ends before a code point exactly when the two do not stay together. */
  lemma BreaksExactly(mark: char -> bool, s: string, i: nat)
    requires MarksAreNoFlags(mark) && 0 < i < |s|
    ensures EndsAt(Clusters(mark, s), i) <==> !Together(mark, s, i)
  {
    var cs := Clusters(mark, s);
    BoundaryExactly(mark, s, i);
    if EndsAt(cs, i) {
      var k :| 0 <= k <= |cs| && |Concat(cs[..k])| == i;
      ClusterEndsAreBoundaries(mark, s, k);
    }
    if Boundary(mark, s, i) {
      CutAt(mark, s, i);
      var front := Clusters(mark, s[..i]);
      assert cs[..|front|] == front;
      ClustersPartition(mark, s[..i]);
    }
  }

  // ----- Which spans are merged

  /** The span at `i` is one half of a flag. */
  ghost predicate HalfAt(text: string, spans: seq<Span>, i: nat) {
    i < |spans| && spans[i].end == spans[i].start + 1 && spans[i].start < |text| && Flag(text[spans[i].start])
  }

  /** How many halves of flags stand directly before `i`. */
  ghost function HalvesBefore(text: string, spans: seq<Span>, i: nat): nat {
    if i == 0 || !HalfAt(text, spans, i - 1) then 0 else 1 + HalvesBefore(text, spans, i - 1)
  }

  /** `i` and the next span are a flag: halves are paired from where their run begins. */
  ghost predicate Opens(text: string, spans: seq<Span>, i: nat) {
    HalfAt(text, spans, i) && HalfAt(text, spans, i + 1) && HalvesBefore(text, spans, i) % 2 == 0
  }

  ghost predicate Closes(text: string, spans: seq<Span>, i: nat) {
    i > 0 && Opens(text, spans, i - 1)
  }

  /** `m` is what becomes of the span at `i`, unless that is the second half of a flag. */
  ghost predicate Becomes(text: string, spans: seq<Span>, i: nat, m: Span) {
    i < |spans| && !Closes(text, spans, i) &&
    m == if Opens(text, spans, i)
         then Span(spans[i].start, spans[i + 1].end, spans[i].cells + spans[i + 1].cells)
         else spans[i]
  }

  lemma FlagOpens(text: string, spans: seq<Span>, i: nat)
    requires i < |spans| && !Closes(text, spans, i)
    ensures FlagAt(text, spans, i) <==> Opens(text, spans, i)
  {
    if FlagAt(text, spans, i) && i > 0 && HalfAt(text, spans, i - 1) {
      assert HalvesBefore(text, spans, i) == 1 + HalvesBefore(text, spans, i - 1);
    }
  }

  lemma {:induction false} MergedFrom(text: string, spans: seq<Span>, index: nat, m: Span)
    requires index <= |spans| && (index < |spans| ==> !Closes(text, spans, index))
    ensures m in Merge(text, spans[index..]) <==> exists i: nat :: index <= i && Becomes(text, spans, i, m)
    decreases |spans| - index
  {
    if index < |spans| {
      FlagOpens(text, spans, index);
      if Opens(text, spans, index) {
        MergePair(text, spans, index);
        assert Closes(text, spans, index + 1);
        assert HalvesBefore(text, spans, index + 1) == HalvesBefore(text, spans, index) + 1;
        MergedFrom(text, spans, index + 2, m);
        var joined := Span(spans[index].start, spans[index + 1].end, spans[index].cells + spans[index + 1].cells);
        assert m == joined <==> Becomes(text, spans, index, m);
        assert !Becomes(text, spans, index + 1, m);
      } else {
        MergeSingle(text, spans, index);
        MergedFrom(text, spans, index + 1, m);
        assert m == spans[index] <==> Becomes(text, spans, index, m);
      }
    }
  }

  /** A merged span is a flag made of two halves that stand next to each other, or a span left as it was. */
  lemma MergedExactly(text: string, spans: seq<Span>, m: Span)
    ensures m in Merge(text, spans) <==> exists i: nat :: Becomes(text, spans, i, m)
  {
    MergedFrom(text, spans, 0, m);
    assert spans[0..] == spans;
  }

  // ----- A marker that does not fit

  /** A width that cuts the marker shows its beginning; a negative one drops that many from its end. */
  lemma MarkerIsCut(marker: string, front: string, back: string)
    requires marker == front + back
    ensures Head(marker, |front|) == front
    ensures back != "" ==> Head(marker, -|back|) == front
    ensures forall width :: width >= |marker| ==> Head(marker, width) == marker
    ensures forall width :: width < -|marker| ==> Head(marker, width) == ""
  {
  }
}
