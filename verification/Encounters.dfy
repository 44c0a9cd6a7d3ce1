/** The passport of met nodes: one entry per node, merged from sightings that come in any order and any number. */
module Encounters {
  import opened Common
  import opened ProfileKeys

  datatype Sighting = Sighting(seenAt: real, longName: Option<string>, shortName: Option<string>,
                               hopsAway: Option<int>, heardDirectly: bool, passAt: Option<real>)

  datatype Encounter = Encounter(longName: Option<string>, shortName: Option<string>, hopsAway: Option<int>,
                                 firstSeenAt: real, lastSeenAt: real,
                                 firstHeardAt: Option<real>, lastHeardAt: Option<real>, passAt: Option<real>)

  function Lower(s: string): string {
    seq(|s|, i requires 0 <= i < |s| => if 'A' <= s[i] <= 'Z' then (s[i] as int + 32) as char else s[i])
  }

  /** The entry's key; None when the ID is blank. */
  function EntryId(id: string): Option<string> {
    if Normalize(Some(id)).Some? then Normalize(Some(id))
    else if Lower(Strip(id)) == "" then None
    else Some(Lower(Strip(id)))
  }

  function Cleaned(name: Option<string>): Option<string> {
    if name.None? || Strip(name.value) == "" then None else Some(Strip(name.value))
  }

  function HeardAt(s: Sighting): Option<real> {
    if s.heardDirectly then Some(s.seenAt) else None
  }

  function OrElse<T>(a: Option<T>, b: Option<T>): Option<T> {
    if a.Some? then a else b
  }

  function Lesser(a: real, b: real): real {
    if a <= b then a else b
  }

  function Greater(a: real, b: real): real {
    if a >= b then a else b
  }

  function Earliest(known: Option<real>, told: Option<real>): Option<real> {
    if told.None? then known else if known.None? then told else Some(Lesser(known.value, told.value))
  }

  function Latest(known: Option<real>, told: Option<real>): Option<real> {
    if told.None? then known else if known.None? then told else Some(Greater(known.value, told.value))
  }

  /** The row a first sighting inserts. */
  function Begun(s: Sighting): Encounter {
    Encounter(Cleaned(s.longName), Cleaned(s.shortName), s.hopsAway, s.seenAt, s.seenAt, HeardAt(s), HeardAt(s),
              s.passAt)
  }

  /** The ON CONFLICT clause. */
  function Merged(e: Encounter, s: Sighting): Encounter {
    Encounter(OrElse(Cleaned(s.longName), e.longName), OrElse(Cleaned(s.shortName), e.shortName),
              OrElse(s.hopsAway, e.hopsAway),
              Lesser(e.firstSeenAt, s.seenAt), Greater(e.lastSeenAt, s.seenAt),
              Earliest(e.firstHeardAt, HeardAt(s)), Latest(e.lastHeardAt, HeardAt(s)), Earliest(e.passAt, s.passAt))
  }

  function Told(e: Option<Encounter>, s: Sighting): Encounter {
    if e.None? then Begun(s) else Merged(e.value, s)
  }

  /** One node's entry after all its sightings. */
  function After(sightings: seq<Sighting>): Option<Encounter> {
    if sightings == [] then None
    else Some(Told(After(sightings[..|sightings| - 1]), sightings[|sightings| - 1]))
  }

  // ----- The entry is the extremes of what was seen

  ghost predicate IsMin(x: real, times: set<real>) {
    x in times && forall y :: y in times ==> x <= y
  }

  ghost predicate IsMax(x: real, times: set<real>) {
    x in times && forall y :: y in times ==> y <= x
  }

  /** None of no times, the least otherwise. */
  ghost predicate IsLeast(x: Option<real>, times: set<real>) {
    if x.None? then times == {} else IsMin(x.value, times)
  }

  ghost predicate IsGreatest(x: Option<real>, times: set<real>) {
    if x.None? then times == {} else IsMax(x.value, times)
  }

  function Seen(sightings: seq<Sighting>): set<real> {
    set s | s in sightings :: s.seenAt
  }

  function Heard(sightings: seq<Sighting>): set<real> {
    set s | s in sightings && s.heardDirectly :: s.seenAt
  }

  function Passed(sightings: seq<Sighting>): set<real> {
    set s | s in sightings && s.passAt.Some? :: s.passAt.value
  }

  ghost predicate Extremes(e: Encounter, seen: set<real>, heard: set<real>, passed: set<real>) {
    && IsMin(e.firstSeenAt, seen) && IsMax(e.lastSeenAt, seen)
    && IsLeast(e.firstHeardAt, heard) && IsGreatest(e.lastHeardAt, heard)
    && IsLeast(e.passAt, passed)
  }

  lemma SetsGrow(front: seq<Sighting>, s: Sighting)
    ensures Seen(front + [s]) == Seen(front) + {s.seenAt}
    ensures Heard(front + [s]) == Heard(front) + (if s.heardDirectly then {s.seenAt} else {})
    ensures Passed(front + [s]) == Passed(front) + (if s.passAt.Some? then {s.passAt.value} else {})
  {
  }

  lemma MergedExtremes(e: Encounter, s: Sighting, seen: set<real>, heard: set<real>, passed: set<real>)
    requires Extremes(e, seen, heard, passed)
    ensures Extremes(Merged(e, s), seen + {s.seenAt}, heard + (if s.heardDirectly then {s.seenAt} else {}),
                     passed + (if s.passAt.Some? then {s.passAt.value} else {}))
  {
  }

  /** After any sightings the five times are the extremes of everything seen, heard and exchanged. */
  lemma {:induction false} EntryHoldsExtremes(sightings: seq<Sighting>)
    requires sightings != []
    ensures Extremes(After(sightings).value, Seen(sightings), Heard(sightings), Passed(sightings))
  {
    var front, last := sightings[..|sightings| - 1], sightings[|sightings| - 1];
    assert sightings == front + [last];
    SetsGrow(front, last);
    if front == [] {
      NothingSeen();
      BegunExtremes(last);
    } else {
      EntryHoldsExtremes(front);
      MergedExtremes(After(front).value, last, Seen(front), Heard(front), Passed(front));
    }
  }

  lemma NothingSeen()
    ensures Seen([]) == Heard([]) == Passed([]) == {}
  {
  }

  lemma BegunExtremes(s: Sighting)
    ensures Extremes(Begun(s), {} + {s.seenAt}, {} + (if s.heardDirectly then {s.seenAt} else {}),
                     {} + (if s.passAt.Some? then {s.passAt.value} else {}))
  {
  }

  predicate SameTimes(a: Encounter, b: Encounter) {
    a.firstSeenAt == b.firstSeenAt && a.lastSeenAt == b.lastSeenAt && a.firstHeardAt == b.firstHeardAt &&
    a.lastHeardAt == b.lastHeardAt && a.passAt == b.passAt
  }

  /** So neither the order of the sightings nor their repetition matters to the times. */
  lemma TimesForgetOrderAndRepetition(a: seq<Sighting>, b: seq<Sighting>)
    requires a != [] && b != [] && (forall s :: s in a <==> s in b)
    ensures SameTimes(After(a).value, After(b).value)
  {
    EntryHoldsExtremes(a);
    EntryHoldsExtremes(b);
    assert Seen(a) == Seen(b) && Heard(a) == Heard(b) && Passed(a) == Passed(b);
  }

  /** A heard node was seen no later than it was heard, on both ends; an unheard one has neither hearing time. */
  lemma HeardWithinSeen(sightings: seq<Sighting>)
    requires sightings != []
    ensures var e := After(sightings).value;
      if e.firstHeardAt.None? then e.lastHeardAt.None?
      else e.lastHeardAt.Some? && e.firstSeenAt <= e.firstHeardAt.value <= e.lastHeardAt.value <= e.lastSeenAt
  {
    EntryHoldsExtremes(sightings);
    assert Heard(sightings) <= Seen(sightings);
  }

  /** `x` is the last value given by `tell`, or nothing was given. */
  ghost predicate IsLastTold<T(!new)>(x: Option<T>, sightings: seq<Sighting>, tell: Sighting -> Option<T>) {
    if x.None? then forall s :: s in sightings ==> tell(s).None?
    else exists i :: 0 <= i < |sightings| && tell(sightings[i]) == x &&
           forall j :: i < j < |sightings| ==> tell(sightings[j]).None?
  }

  function LongNameOf(s: Sighting): Option<string> { Cleaned(s.longName) }

  function ShortNameOf(s: Sighting): Option<string> { Cleaned(s.shortName) }

  function HopsOf(s: Sighting): Option<int> { s.hopsAway }

  lemma LastToldGrows<T(!new)>(x: Option<T>, front: seq<Sighting>, s: Sighting, tell: Sighting -> Option<T>)
    requires IsLastTold(x, front, tell)
    ensures IsLastTold(OrElse(tell(s), x), front + [s], tell)
  {
    var all := front + [s];
    if tell(s).Some? {
      assert tell(all[|front|]) == tell(s);
    } else if x.Some? {
      var i :| 0 <= i < |front| && tell(front[i]) == x && forall j :: i < j < |front| ==> tell(front[j]).None?;
      assert tell(all[i]) == x;
    }
  }

  /** Names and hop count are the last ones any sighting carried; a sighting without them erases nothing. */
  lemma {:induction false} EntryHoldsLastTold(sightings: seq<Sighting>)
    requires sightings != []
    ensures IsLastTold(After(sightings).value.longName, sightings, LongNameOf)
    ensures IsLastTold(After(sightings).value.shortName, sightings, ShortNameOf)
    ensures IsLastTold(After(sightings).value.hopsAway, sightings, HopsOf)
  {
    var front, last := sightings[..|sightings| - 1], sightings[|sightings| - 1];
    assert sightings == front + [last];
    var e := After(front);
    if front != [] {
      EntryHoldsLastTold(front);
    }
    var long: Option<string> := if e.None? then None else e.value.longName;
    var short: Option<string> := if e.None? then None else e.value.shortName;
    var hops: Option<int> := if e.None? then None else e.value.hopsAway;
    LastToldGrows(long, front, last, LongNameOf);
    LastToldGrows(short, front, last, ShortNameOf);
    LastToldGrows(hops, front, last, HopsOf);
    assert After(sightings).value.longName == OrElse(LongNameOf(last), long);
    assert After(sightings).value.shortName == OrElse(ShortNameOf(last), short);
    assert After(sightings).value.hopsAway == OrElse(HopsOf(last), hops);
  }

  // ----- The whole book

  datatype Visit = Visit(id: string, sighting: Sighting)

  /** The sightings of one entry, in order. */
  function Of(visits: seq<Visit>, id: string): seq<Sighting> {
    if visits == [] then []
    else
      var front := Of(visits[..|visits| - 1], id);
      var last := visits[|visits| - 1];
      if EntryId(last.id) == Some(id) then front + [last.sighting] else front
  }

  class Book {
    var entries: map<string, Encounter>

    constructor ()
      ensures entries == map[]
    {
      entries := map[];
    }

    /** `ok` is false for a blank ID, and then nothing is recorded. */
    method Record(id: string, s: Sighting) returns (ok: bool)
      modifies this
      ensures ok == EntryId(id).Some?
      ensures entries == if ok then old(entries)[EntryId(id).value := Told(Lookup(old(entries), EntryId(id).value), s)]
                         else old(entries)
    {
      var key := EntryId(id);
      ok := key.Some?;
      if ok {
        if key.value in entries {
          entries := entries[key.value := Merged(entries[key.value], s)];
        } else {
          entries := entries[key.value := Begun(s)];
        }
      }
    }

    /** A book filled from a log holds, for every node, exactly the merge of that node's own sightings. */
    method RecordAll(visits: seq<Visit>)
      requires entries == map[]
      modifies this
      ensures forall id :: Lookup(entries, id) == After(Of(visits, id))
    {
      for i := 0 to |visits|
        invariant forall id :: Lookup(entries, id) == After(Of(visits[..i], id))
      {
        assert visits[..i + 1][..i] == visits[..i];
        ghost var before := entries;
        var ok := Record(visits[i].id, visits[i].sighting);
        forall id ensures Lookup(entries, id) == After(Of(visits[..i + 1], id)) {
          assert Lookup(before, id) == After(Of(visits[..i], id));
          OfSnoc(visits[..i + 1], id);
        }
      }
      assert visits[..|visits|] == visits;
    }
  }

  function Lookup(entries: map<string, Encounter>, id: string): Option<Encounter> {
    if id in entries then Some(entries[id]) else None
  }

  lemma OfSnoc(visits: seq<Visit>, id: string)
    requires visits != []
    ensures var front, last := Of(visits[..|visits| - 1], id), visits[|visits| - 1];
      After(Of(visits, id)) ==
      if EntryId(last.id) == Some(id) then Some(Told(After(front), last.sighting)) else After(front)
  {
    var front, last := Of(visits[..|visits| - 1], id), visits[|visits| - 1];
    if EntryId(last.id) == Some(id) {
      assert (front + [last.sighting])[..|front|] == front;
    }
  }
}
