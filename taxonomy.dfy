/**
 * The category taxonomy of the rankings: time periods and style/audience segments,
 * each with the string name that goes into counter keys, plus the tag and
 * preference constants the rankings code borrows from the events and users code.
 */
module Taxonomy {

  // Names of the two counting jobs (their mapreduce app ids).
  const EVENT_RANKING: string := "EVENT_RANKING"
  const USER_RANKING: string := "USER_RANKING"

  // Event tags (events/tags.py is not part of this model; its values are taken as these names).
  const FREESTYLE_EVENT: string := "FREESTYLE_EVENT"
  const CHOREO_EVENT: string := "CHOREO_EVENT"

  // User preference values used in ranking links (events/users.py is not part of this model).
  const FREESTYLE_APATHY: string := "FREESTYLE_APATHY"
  const CHOREO_APATHY: string := "CHOREO_APATHY"

  /** The region the city lookup reports when it finds no city. */
  const UNKNOWN_REGION: string := "Unknown"

  /** Cumulative windows: a timestamp in the last week is also in the last month. */
  datatype TimePeriod = LastWeek | LastMonth | AllTime
  {
    function Name(): string
    {
      match this
      case LastWeek => "LAST_WEEK"
      case LastMonth => "LAST_MONTH"
      case AllTime => "ALL_TIME"
    }
  }

  const TIME_PERIODS: seq<TimePeriod> := [AllTime, LastMonth, LastWeek]

  /** Event styles (first three) and user audience segments (the rest). */
  datatype Segment =
    | AnyStyle | FreestyleStyle | ChoreoStyle
    | DanceFan | DanceDancer | ChoreoFan | ChoreoDancer | FreestyleFan | FreestyleDancer
  {
    function Name(): string
    {
      match this
      case AnyStyle => "ANY_STYLE"
      case FreestyleStyle => FREESTYLE_EVENT
      case ChoreoStyle => CHOREO_EVENT
      case DanceFan => "DANCE_FAN"
      case DanceDancer => "DANCE_DANCER"
      case ChoreoFan => "CHOREO_FAN"
      case ChoreoDancer => "CHOREO_DANCER"
      case FreestyleFan => "FREESTYLE_FAN"
      case FreestyleDancer => "FREESTYLE_DANCER"
    }

    /** A style of events rather than an audience segment of users. */
    predicate IsEventStyle()
    {
      AnyStyle? || FreestyleStyle? || ChoreoStyle?
    }
  }

  const STYLES: seq<Segment> := [AnyStyle, FreestyleStyle, ChoreoStyle]
  const PEOPLES: seq<Segment> := [DanceFan, DanceDancer, ChoreoFan, ChoreoDancer, FreestyleFan, FreestyleDancer]
  const FANS: seq<Segment> := [ChoreoFan, FreestyleFan, DanceFan]
  const DANCERS: seq<Segment> := [ChoreoDancer, FreestyleDancer, DanceDancer]

  /** `STYLES` lists exactly the event styles, and `PEOPLES` exactly the other segments. */
  lemma StylesAreEventStyles()
    ensures forall s: Segment :: s in STYLES <==> s.IsEventStyle()
    ensures forall s: Segment :: s in PEOPLES <==> !s.IsEventStyle()
  {
  }

  /** Names identify periods and segments, and never contain the counter-key delimiter. */
  lemma NamesWellFormed()
    ensures forall a: TimePeriod, b: TimePeriod :: a.Name() == b.Name() ==> a == b
    ensures forall a: Segment, b: Segment :: a.Name() == b.Name() ==> a == b
    ensures forall a: TimePeriod :: '/' !in a.Name()
    ensures forall a: Segment :: '/' !in a.Name()
  {
  }
}
