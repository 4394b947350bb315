/**
 * The entity classifiers of logic/rankings.py: which time periods a timestamp
 * falls in, and which segments a user's preferences or an event's tags put it in.
 * Each generator is modelled as the sequence it yields, in yield order.
 */
module Classifier {
  import opened Taxonomy
  import opened Sequences

  /** One day in timestamp units (microseconds, the resolution of a datetime). */
  const DAY: int := 86_400_000_000

  /**
   * The periods of `timestamp`. The source reads the clock twice: `weekNow` is
   * the reading for the last-week test and `monthNow` the one for the last-month test.
   */
  function TimePeriodsAt(timestamp: int, weekNow: int, monthNow: int): (r: seq<TimePeriod>)
    ensures AllTime in r && r[|r| - 1] == AllTime
    ensures LastWeek in r <==> timestamp > weekNow - 7 * DAY
    ensures LastMonth in r <==> timestamp > monthNow - 31 * DAY
    ensures Distinct(r) && forall p :: p in r ==> p in TIME_PERIODS
  {
    (if timestamp > weekNow - 7 * DAY then [LastWeek] else []) +
    (if timestamp > monthNow - 31 * DAY then [LastMonth] else []) +
    [AllTime]
  }

  /** The periods of `timestamp` when both clock readings are `now`. */
  function TimePeriods(timestamp: int, now: int): seq<TimePeriod>
  {
    TimePeriodsAt(timestamp, now, now)
  }

  /** For one "now" the windows nest: last week implies last month, and all time is always there. */
  lemma PeriodsNested(timestamp: int, now: int)
    ensures AllTime in TimePeriods(timestamp, now)
    ensures LastWeek in TimePeriods(timestamp, now) ==> LastMonth in TimePeriods(timestamp, now)
  {
  }

  /** The windows still nest when the second clock reading is at most 24 days after the first. */
  lemma PeriodsNestedAcrossReadings(timestamp: int, weekNow: int, monthNow: int)
    requires weekNow <= monthNow <= weekNow + 24 * DAY
    ensures LastWeek in TimePeriodsAt(timestamp, weekNow, monthNow) ==> LastMonth in TimePeriodsAt(timestamp, weekNow, monthNow)
  {
  }

  lemma OldTimestampAllTimeOnly(timestamp: int, now: int)
    requires timestamp <= now - 31 * DAY
    ensures TimePeriods(timestamp, now) == [AllTime]
  {
  }

  lemma RecentTimestampAllPeriods(timestamp: int, now: int)
    requires timestamp > now - 7 * DAY
    ensures TimePeriods(timestamp, now) == [LastWeek, LastMonth, AllTime]
  {
  }

  /**
   * A user's freestyle or choreo preference. `Other` stands for any stored value
   * equal to none of the three constants (for instance a preference never set).
   */
  datatype Preference = Apathy | Fan | Dancer | Other

  datatype User = User(freestyle: Preference, choreo: Preference, creationTime: int, location: string)

  /** The segments one style preference puts a user in. */
  function StyleAudience(p: Preference, fan: Segment, dancer: Segment): (r: seq<Segment>)
    requires fan != dancer
    ensures fan in r <==> p == Fan || p == Dancer
    ensures dancer in r <==> p == Dancer
    ensures forall s :: s in r ==> s == fan || s == dancer
    ensures Distinct(r)
  {
    match p
    case Fan => [fan]
    case Dancer => [fan, dancer]
    case _ => []
  }

  /** The segments a user is in whichever style they like. */
  function GeneralAudience(u: User): (r: seq<Segment>)
    ensures DanceFan in r <==> u.freestyle != Apathy || u.choreo != Apathy
    ensures DanceDancer in r <==> u.freestyle == Dancer || u.choreo == Dancer
    ensures forall s :: s in r ==> s == DanceFan || s == DanceDancer
    ensures Distinct(r)
  {
    if u.choreo != Apathy || u.freestyle != Apathy then
      [DanceFan] + (if u.choreo == Dancer || u.freestyle == Dancer then [DanceDancer] else [])
    else []
  }

  /** The audience segments a user counts in, each once. */
  function UserSegments(u: User): (r: seq<Segment>)
    ensures forall s :: s in r ==> !s.IsEventStyle()
    ensures Distinct(r)
  {
    var freestyle := StyleAudience(u.freestyle, FreestyleFan, FreestyleDancer);
    var choreo := StyleAudience(u.choreo, ChoreoFan, ChoreoDancer);
    var general := GeneralAudience(u);
    DistinctAppend(freestyle, choreo);
    DistinctAppend(freestyle + choreo, general);
    freestyle + choreo + general
  }

  /** Which segments a user is in, by preference. */
  lemma UserSegmentsMembers(u: User)
    ensures var r := UserSegments(u);
      && (FreestyleFan in r <==> u.freestyle == Fan || u.freestyle == Dancer)
      && (FreestyleDancer in r <==> u.freestyle == Dancer)
      && (ChoreoFan in r <==> u.choreo == Fan || u.choreo == Dancer)
      && (ChoreoDancer in r <==> u.choreo == Dancer)
      && (DanceFan in r <==> u.freestyle != Apathy || u.choreo != Apathy)
      && (DanceDancer in r <==> u.freestyle == Dancer || u.choreo == Dancer)
  {
    var freestyle := StyleAudience(u.freestyle, FreestyleFan, FreestyleDancer);
    var choreo := StyleAudience(u.choreo, ChoreoFan, ChoreoDancer);
    var general := GeneralAudience(u);
    assert UserSegments(u) == freestyle + choreo + general;
  }

  /** Every dancer segment comes with the matching fan segment. */
  lemma DancerImpliesFan(u: User)
    ensures FreestyleDancer in UserSegments(u) ==> FreestyleFan in UserSegments(u)
    ensures ChoreoDancer in UserSegments(u) ==> ChoreoFan in UserSegments(u)
    ensures DanceDancer in UserSegments(u) ==> DanceFan in UserSegments(u)
    ensures forall i :: 0 <= i < |DANCERS| && DANCERS[i] in UserSegments(u) ==> FANS[i] in UserSegments(u)
  {
    UserSegmentsMembers(u);
  }

  lemma FanIsNotDancer(u: User)
    requires u.freestyle == Fan && u.choreo == Fan
    ensures UserSegments(u) == [FreestyleFan, ChoreoFan, DanceFan]
  {
  }

  lemma ApatheticUserHasNoSegment(u: User)
    requires u.freestyle == Apathy && u.choreo == Apathy
    ensures UserSegments(u) == []
  {
  }

  /** The style segments of an event with the given search tags. */
  function EventStyles(searchTags: seq<string>): (r: seq<Segment>)
    ensures AnyStyle in r
    ensures FreestyleStyle in r <==> FREESTYLE_EVENT in searchTags
    ensures ChoreoStyle in r <==> CHOREO_EVENT in searchTags
    ensures forall s :: s in r ==> s.IsEventStyle()
    ensures Distinct(r)
  {
    (if FREESTYLE_EVENT in searchTags then [FreestyleStyle] else []) +
    (if CHOREO_EVENT in searchTags then [ChoreoStyle] else []) +
    [AnyStyle]
  }
}
