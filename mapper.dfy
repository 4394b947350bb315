/**
 * The counting mappers `count_event` and `count_user`: for one entity, the counter
 * names incremented by one, one per (time period, segment) pair, in emission order.
 * The city lookup is a parameter (`nearestCity`) and so is the clock (`now`).
 */
module Mapper {
  import opened Wrappers
  import opened Taxonomy
  import opened Classifier
  import opened CounterKeys
  import opened Sequences

  datatype Event = Event(startTime: Option<int>, creationTime: Option<int>, searchTags: seq<string>, address: string)

  /** The names emitted for one period: one per segment, in segment order. */
  function PeriodIncrements(region: string, period: TimePeriod, segments: seq<Segment>): (names: seq<string>)
    ensures |names| == |segments|
    ensures forall j :: 0 <= j < |segments| ==> names[j] == CounterKey(region, period.Name(), segments[j].Name()).Serialize()
  {
    seq(|segments|, j requires 0 <= j < |segments| => CounterKey(region, period.Name(), segments[j].Name()).Serialize())
  }

  /** The nested loop over periods (outer) and segments (inner). */
  function Increments(region: string, periods: seq<TimePeriod>, segments: seq<Segment>): (names: seq<string>)
    ensures |names| == |periods| * |segments|
    ensures forall k :: 0 <= k < |names| ==> region + "/" <= names[k]
  {
    if periods == [] then []
    else
      var row := PeriodIncrements(region, periods[0], segments);
      var rest := Increments(region, periods[1..], segments);
      assert |row + rest| == |segments| + (|periods| - 1) * |segments|;
      row + rest
  }

  /** Row-major layout: the name at (i, j) is the key of period i and segment j. */
  lemma {:induction false} IncrementsAt(region: string, periods: seq<TimePeriod>, segments: seq<Segment>, i: int, j: int)
    requires 0 <= i < |periods| && 0 <= j < |segments|
    ensures 0 <= i * |segments| + j < |Increments(region, periods, segments)|
    ensures Increments(region, periods, segments)[i * |segments| + j] ==
            CounterKey(region, periods[i].Name(), segments[j].Name()).Serialize()
  {
    var n := |segments|;
    RowMajor(i, j, n, |periods|);
    if i > 0 {
      IncrementsAt(region, periods[1..], segments, i - 1, j);
      assert periods[1..][i - 1] == periods[i];
    }
  }

  /** Index arithmetic of a row-major |rows| x n layout. */
  lemma RowMajor(i: int, j: int, n: int, rows: int)
    requires 0 <= i < rows && 0 <= j < n
    ensures 0 <= i * n + j < rows * n
    ensures i > 0 ==> i * n + j == n + ((i - 1) * n + j) && (i - 1) * n + j < (rows - 1) * n
  {
    assert i * n + j < (i + 1) * n <= rows * n;
  }

  /** `name` reads back as a key for `region` and one of `periods`. */
  predicate EmittedFor(name: string, region: string, periods: seq<TimePeriod>)
  {
    Parse(name).Some? && Parse(name).value.region == region &&
    Parse(name).value.period in (set p | p in periods :: p.Name())
  }

  /** Every emitted name reads back as a key for `region` and one of the given periods. */
  lemma {:induction false} IncrementsKeyAt(region: string, periods: seq<TimePeriod>, segments: seq<Segment>, k: int)
    requires '/' !in region
    requires 0 <= k < |Increments(region, periods, segments)|
    ensures EmittedFor(Increments(region, periods, segments)[k], region, periods)
  {
    var row := PeriodIncrements(region, periods[0], segments);
    if k < |row| {
      NamesWellFormed();
      ParseSerialize(CounterKey(region, periods[0].Name(), segments[k].Name()));
    } else {
      IncrementsKeyAt(region, periods[1..], segments, k - |row|);
      assert forall p :: p in periods[1..] ==> p in periods;
    }
  }

  /** The time the event is ranked by: its creation time when set, its start time otherwise. */
  function RankedTime(e: Event): (t: int)
    requires e.startTime.Some?
    ensures e.creationTime.Some? ==> t == e.creationTime.value
    ensures e.creationTime.None? ==> t == e.startTime.value
  {
    if e.creationTime.Some? then e.creationTime.value else e.startTime.value
  }

  /** `count_event`: nothing for a deleted event (no start time). */
  function CountEvent(e: Event, now: int, nearestCity: string -> string): (names: seq<string>)
    ensures e.startTime.None? ==> names == []
    ensures e.startTime.Some? ==>
              |names| == |TimePeriods(RankedTime(e), now)| * |EventStyles(e.searchTags)|
    ensures forall k :: 0 <= k < |names| ==> nearestCity(e.address) + "/" <= names[k]
  {
    if e.startTime.None? then []
    else Increments(nearestCity(e.address), TimePeriods(RankedTime(e), now), EventStyles(e.searchTags))
  }

  /** `count_user`: every user counts, by creation time and preferences. */
  function CountUser(u: User, now: int, nearestCity: string -> string): (names: seq<string>)
    ensures |names| == |TimePeriods(u.creationTime, now)| * |UserSegments(u)|
    ensures forall k :: 0 <= k < |names| ==> nearestCity(u.location) + "/" <= names[k]
  {
    Increments(nearestCity(u.location), TimePeriods(u.creationTime, now), UserSegments(u))
  }

  /**
   * Every emitted name reads back as the (region, period, segment) it was written
   * for, provided the region is free of '/'.
   */
  lemma IncrementsReadBack(region: string, periods: seq<TimePeriod>, segments: seq<Segment>, i: int, j: int)
    requires '/' !in region
    requires 0 <= i < |periods| && 0 <= j < |segments|
    ensures 0 <= i * |segments| + j < |Increments(region, periods, segments)|
    ensures Parse(Increments(region, periods, segments)[i * |segments| + j]) ==
            Some(CounterKey(region, periods[i].Name(), segments[j].Name()))
  {
    NamesWellFormed();
    IncrementsAt(region, periods, segments, i, j);
    ParseSerialize(CounterKey(region, periods[i].Name(), segments[j].Name()));
  }

  lemma IncrementsSplit(region: string, periods: seq<TimePeriod>, segments: seq<Segment>)
    requires periods != []
    ensures Increments(region, periods, segments) ==
            PeriodIncrements(region, periods[0], segments) + Increments(region, periods[1..], segments)
  {
  }

  /** The name at position `k` is the key of some period `i` and some segment `j`, whatever the region. */
  lemma {:induction false} IncrementsNameAt(region: string, periods: seq<TimePeriod>, segments: seq<Segment>, k: int)
      returns (i: int, j: int)
    requires 0 <= k < |Increments(region, periods, segments)|
    ensures 0 <= i < |periods| && 0 <= j < |segments|
    ensures Increments(region, periods, segments)[k] == CounterKey(region, periods[i].Name(), segments[j].Name()).Serialize()
  {
    IncrementsSplit(region, periods, segments);
    var n := |segments|;
    if k < n {
      i, j := 0, k;
    } else {
      var i' ;
      i', j := IncrementsNameAt(region, periods[1..], segments, k - n);
      i := i' + 1;
    }
  }

  /** Two names of one region with the same name have the same period and segment. */
  lemma SameName(region: string, p: TimePeriod, s: Segment, p': TimePeriod, s': Segment)
    requires CounterKey(region, p.Name(), s.Name()).Serialize() == CounterKey(region, p'.Name(), s'.Name()).Serialize()
    ensures p == p' && s == s'
  {
    NamesWellFormed();
    SameRegionInjective(CounterKey(region, p.Name(), s.Name()), CounterKey(region, p'.Name(), s'.Name()));
  }

  /** Two names of the first period differ. */
  lemma DistinctInFirstRow(region: string, periods: seq<TimePeriod>, segments: seq<Segment>, a: int, b: int)
    requires periods != [] && Distinct(segments)
    requires 0 <= a < b < |segments|
    ensures 0 <= b < |Increments(region, periods, segments)|
    ensures Increments(region, periods, segments)[a] != Increments(region, periods, segments)[b]
  {
    IncrementsSplit(region, periods, segments);
    RowDistinct(region, periods[0], segments);
  }

  /** A name of the first period differs from every name of a later one. */
  lemma DistinctAcrossRows(region: string, periods: seq<TimePeriod>, segments: seq<Segment>, a: int, b: int)
    requires periods != [] && Distinct(periods)
    requires 0 <= a < |segments| <= b < |Increments(region, periods, segments)|
    ensures Increments(region, periods, segments)[a] != Increments(region, periods, segments)[b]
  {
    IncrementsSplit(region, periods, segments);
    RowBeforeRest(region, periods, segments, a, b - |segments|);
  }

  /** With distinct periods and distinct segments, no name is emitted twice, whatever the region. */
  lemma {:induction false} IncrementsDistinctAt(region: string, periods: seq<TimePeriod>, segments: seq<Segment>, a: int, b: int)
    requires Distinct(periods) && Distinct(segments)
    requires 0 <= a < b < |Increments(region, periods, segments)|
    ensures Increments(region, periods, segments)[a] != Increments(region, periods, segments)[b]
  {
    var n := |segments|;
    if b < n {
      DistinctInFirstRow(region, periods, segments, a, b);
    } else if a < n {
      DistinctAcrossRows(region, periods, segments, a, b);
    } else {
      var names, rest := Increments(region, periods, segments), Increments(region, periods[1..], segments);
      IncrementsSplit(region, periods, segments);
      assert names[a] == rest[a - n] && names[b] == rest[b - n];
      DistinctTail(periods);
      IncrementsDistinctAt(region, periods[1..], segments, a - n, b - n);
    }
  }

  lemma RowDistinct(region: string, period: TimePeriod, segments: seq<Segment>)
    requires Distinct(segments)
    ensures Distinct(PeriodIncrements(region, period, segments))
  {
    var row := PeriodIncrements(region, period, segments);
    forall a, b | 0 <= a < b < |row| ensures row[a] != row[b] {
      if row[a] == row[b] {
        SameName(region, period, segments[a], period, segments[b]);
      }
    }
  }

  lemma RowBeforeRest(region: string, periods: seq<TimePeriod>, segments: seq<Segment>, a: int, b: int)
    requires periods != [] && Distinct(periods)
    requires 0 <= a < |segments| && 0 <= b < |Increments(region, periods[1..], segments)|
    ensures PeriodIncrements(region, periods[0], segments)[a] != Increments(region, periods[1..], segments)[b]
  {
    var i, j := IncrementsNameAt(region, periods[1..], segments, b);
    assert periods[1..][i] == periods[i + 1];
    if PeriodIncrements(region, periods[0], segments)[a] == Increments(region, periods[1..], segments)[b] {
      SameName(region, periods[0], segments[a], periods[i + 1], segments[j]);
    }
  }

  /** `count_event` (region free of '/'): name (i, j) reads back as period i and style j. */
  lemma CountEventReadBack(e: Event, now: int, nearestCity: string -> string, i: int, j: int)
    requires e.startTime.Some? && '/' !in nearestCity(e.address)
    requires 0 <= i < |TimePeriods(RankedTime(e), now)| && 0 <= j < |EventStyles(e.searchTags)|
    ensures var P, S := TimePeriods(RankedTime(e), now), EventStyles(e.searchTags);
            0 <= i * |S| + j < |CountEvent(e, now, nearestCity)| &&
            Parse(CountEvent(e, now, nearestCity)[i * |S| + j]) == Some(CounterKey(nearestCity(e.address), P[i].Name(), S[j].Name()))
  {
    IncrementsReadBack(nearestCity(e.address), TimePeriods(RankedTime(e), now), EventStyles(e.searchTags), i, j);
  }

  /** `count_event` never increments the same counter twice for one event, whatever the city. */
  lemma CountEventDistinct(e: Event, now: int, nearestCity: string -> string)
    ensures var names := CountEvent(e, now, nearestCity);
            forall a, b :: 0 <= a < b < |names| ==> names[a] != names[b]
  {
    var names := CountEvent(e, now, nearestCity);
    forall a, b | 0 <= a < b < |names| ensures names[a] != names[b] {
      IncrementsDistinctAt(nearestCity(e.address), TimePeriods(RankedTime(e), now), EventStyles(e.searchTags), a, b);
    }
  }

  /** `count_user` (region free of '/'): name (i, j) reads back as period i and segment j. */
  lemma CountUserReadBack(u: User, now: int, nearestCity: string -> string, i: int, j: int)
    requires '/' !in nearestCity(u.location)
    requires 0 <= i < |TimePeriods(u.creationTime, now)| && 0 <= j < |UserSegments(u)|
    ensures var P, S := TimePeriods(u.creationTime, now), UserSegments(u);
            0 <= i * |S| + j < |CountUser(u, now, nearestCity)| &&
            Parse(CountUser(u, now, nearestCity)[i * |S| + j]) == Some(CounterKey(nearestCity(u.location), P[i].Name(), S[j].Name()))
  {
    IncrementsReadBack(nearestCity(u.location), TimePeriods(u.creationTime, now), UserSegments(u), i, j);
  }

  /** `count_user` never increments the same counter twice for one user, whatever the city. */
  lemma CountUserDistinct(u: User, now: int, nearestCity: string -> string)
    ensures var names := CountUser(u, now, nearestCity);
            forall a, b :: 0 <= a < b < |names| ==> names[a] != names[b]
  {
    var names := CountUser(u, now, nearestCity);
    forall a, b | 0 <= a < b < |names| ensures names[a] != names[b] {
      IncrementsDistinctAt(nearestCity(u.location), TimePeriods(u.creationTime, now), UserSegments(u), a, b);
    }
  }
}
