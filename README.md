# Dance rankings and geocode cache — a Dafny model

This project models two parts of a dance-event site:

- **Rankings.** Every event and every user is counted per city, per time window (last week, last month, all time) and per audience or style segment. A mapper emits one `region/period/style` counter increment per combination. The finished job's flat counter map is parsed back into a nested `city → period → style → count` table. That table is summed (`compute_sum`) and turned into per-style city leaderboards sorted by descending count (`compute_template_rankings`).
- **Geocode cache.** A request to the geocoding service is keyed by a canonical string: each argument's value is stripped and lower-cased and rendered as `name=<quoted value>`, and the parts are sorted and joined with `", "`. `fetch_raw` reads through a key → JSON table. `_write_cache` back-fills it without ever replacing an entry.

Modules:

| file | module | what it holds |
|---|---|---|
| `wrappers.dfy` | `Wrappers` | `Option`, `Result` |
| `strings.dfy` | `Strings` | `str.count`, `str.split` and `sep.join` on one separator, with split/join round trips |
| `sorting.dfy` | `Sorting` | Python's `sorted` as insertion sort by a total preorder; uniqueness of the sorted arrangement under a total order |
| `sequences.dfy` | `Sequences` | sequences without repeats; mapping over a sequence, and how that preserves permutations |
| `taxonomy.dfy` | `Taxonomy` | ranking categories, time periods, segments and their names |
| `classifier.dfy` | `Classifier` | `get_time_periods`, `get_user_dance_styles`, `get_event_dance_styles` |
| `counter_keys.dfy` | `CounterKeys` | the counter name as a (region, period, style) triple, its `/`-joined form and its parse |
| `mapper.dfy` | `Mapper` | `count_event`, `count_user` |
| `report.dfy` | `Report` | the counter-map parse shared by `get_event_rankings` and `get_user_rankings`; selecting the latest successful job |
| `leaderboard.dfy` | `Leaderboard` | `compute_sum`, `compute_template_rankings` |
| `geocode_key.dfy` | `GeocodeKey` | `_geocode_key` |
| `geocode_cache.dfy` | `GeocodeCache` | the `CachedGeoCode` table as a class with `fetch_raw` and `_write_cache` |

Generators are modelled as the sequence they yield, in yield order. Python dict iteration is modelled as picking any remaining key (`:|`), so nothing proved depends on iteration order. The clock, the nearest-city lookup and the geocoding service are parameters.

## Model

| member | source | states |
|---|---|---|
| Taxonomy.NamesWellFormed | logic/rankings.py:20-66 | period names and segment names are each pairwise distinct and contain no `/` |
| Taxonomy.StylesAreEventStyles | logic/rankings.py:34-54 | `STYLES` lists exactly the event styles and `PEOPLES` exactly the audience segments |
| Classifier.TimePeriodsAt | logic/rankings.py:83-88 | ALL_TIME is always yielded, last. LAST_WEEK is yielded iff the timestamp is after the first clock reading minus 7 days. LAST_MONTH is yielded iff it is after the second reading minus 31 days. No period is yielded twice, and each is one of `TIME_PERIODS` |
| Classifier.PeriodsNested | logic/rankings.py:83-88 | for one "now", ALL_TIME is always present and LAST_WEEK implies LAST_MONTH |
| Classifier.PeriodsNestedAcrossReadings | logic/rankings.py:84-86 | the nesting still holds when the second clock reading is at most 24 days after the first |
| Classifier.OldTimestampAllTimeOnly | logic/rankings.py:84-88 | a timestamp at or before now − 31 days yields exactly `[ALL_TIME]` |
| Classifier.RecentTimestampAllPeriods | logic/rankings.py:84-88 | a timestamp after now − 7 days yields `[LAST_WEEK, LAST_MONTH, ALL_TIME]` |
| Classifier.StyleAudience | logic/rankings.py:91-101 | a style's fan segment is yielded iff the preference is fan or dancer. Its dancer segment is yielded iff the preference is dancer. Nothing else is yielded, and nothing twice |
| Classifier.GeneralAudience | logic/rankings.py:103-106 | DANCE_FAN iff some preference is not apathy; DANCE_DANCER iff some preference is dancer |
| Classifier.UserSegments | logic/rankings.py:90-106 | a user's segments are never event styles (so all are in `PEOPLES`) and never repeat |
| Classifier.UserSegmentsMembers | logic/rankings.py:90-106 | for each of the six segments, the exact condition on the two preferences under which it is yielded |
| Classifier.DancerImpliesFan | logic/rankings.py:93-106 | every dancer segment comes with its fan segment (freestyle, choreo, and the cross-style pair); in particular `DANCERS[i]` comes with `FANS[i]` at each position of the two lists |
| Classifier.FanIsNotDancer | logic/rankings.py:91-104 | a fan of both styles yields exactly `[FREESTYLE_FAN, CHOREO_FAN, DANCE_FAN]` |
| Classifier.ApatheticUserHasNoSegment | logic/rankings.py:103-106 | a user apathetic in both styles yields nothing |
| Classifier.EventStyles | logic/rankings.py:108-113 | ANY_STYLE always. FREESTYLE iff the freestyle tag is among the search tags. CHOREO iff the choreo tag is. Only event styles (the segments of `STYLES`), none twice |
| Strings.Count | logic/rankings.py:154 | the count is at most the length, and zero iff the character does not occur |
| Strings.CountIsMultiplicity | logic/rankings.py:154 | the count is the number of occurrences of the character (its multiplicity in the string) |
| Strings.Split | logic/rankings.py:156 | splitting yields one more piece than there are separators, and no piece holds a separator |
| Strings.SplitJoin | logic/rankings.py:156 | splitting a join of separator-free pieces gives the pieces back |
| Strings.JoinSplit | logic/rankings.py:156 | joining the pieces of a split with the separator gives the string back |
| Strings.Join | loc/gmaps_cached.py:18 | no parts give the empty string; otherwise the result begins with the first part and its length is the parts' lengths plus one separator between each two parts |
| CounterKeys.Parse | logic/rankings.py:154-156 | a name parses iff it has exactly two `/`, and then its three parts are `/`-free |
| CounterKeys.SerializeIsJoin | logic/rankings.py:122 | the counter name is the `/`-join of region, period and style |
| CounterKeys.ParseSerialize | logic/rankings.py:122 | parsing the name written for a `/`-free (region, period, style) gives that triple back |
| CounterKeys.SerializeParse | logic/rankings.py:154-156 | a name that parses is exactly the name of the triple it parses to |
| CounterKeys.AmbiguousKeyDropped | logic/rankings.py:154-155 | a name written for a triple with a `/` in some part is skipped by the parse |
| CounterKeys.SameRegionInjective | logic/rankings.py:122 | two names of one region, with periods and styles free of `/`, are equal only if their periods and styles are, whatever the region contains |
| Mapper.Increments | logic/rankings.py:120-122 | the nested loops emit len(periods) × len(segments) names, all beginning with `region/` |
| Mapper.IncrementsAt | logic/rankings.py:120-122 | the name at position i·len(segments) + j is the key of period i and segment j (period outer, segment inner) |
| Mapper.IncrementsKeyAt | logic/rankings.py:120-122 | every emitted name parses to the region and one of the periods |
| Mapper.IncrementsNameAt | logic/rankings.py:120-122 | every emitted name is the key of one of the periods and one of the segments, whatever the region |
| Mapper.IncrementsReadBack | logic/rankings.py:120-122 | for a `/`-free region, the name at (i, j) parses back to (region, period i, segment j) |
| Mapper.IncrementsDistinctAt | logic/rankings.py:120-122 | with distinct periods and distinct segments no name is emitted twice, whatever the region (even one holding `/`) |
| Mapper.RankedTime | logic/rankings.py:120 | an event is ranked by its creation time when that is set, and by its start time otherwise |
| Mapper.CountEvent | logic/rankings.py:115-122 | no start time: no increments. Otherwise len(periods) × len(styles) of them, periods taken from the creation time when set and the start time otherwise, all prefixed by the event's city |
| Mapper.CountUser | logic/rankings.py:124-129 | len(periods(creation time)) × len(user segments) increments, all prefixed by the user's city |
| Mapper.CountEventReadBack | logic/rankings.py:115-122 | the event's name (i, j) parses back to its city, period i and style j |
| Mapper.CountEventDistinct | logic/rankings.py:115-122 | an event never increments the same counter twice, whatever its city |
| Mapper.CountUserReadBack | logic/rankings.py:124-129 | the user's name (i, j) parses back to its city, period i and segment j |
| Mapper.CountUserDistinct | logic/rankings.py:124-129 | a user never increments the same counter twice, whatever its city |
| Report.BuildRankings | logic/rankings.py:151-158 | the table built from a counter map is its rebuild. Every name with two `/` sits at its city/period/style with its value. Every entry comes from such a name. No city or period is left empty |
| Report.SkipPreserves | logic/rankings.py:154-155 | skipping a name that does not parse keeps the table a rebuild of the names seen |
| Report.InsertPreserves | logic/rankings.py:156-157 | the `setdefault` chain for one more parsed name keeps the table a rebuild of the names seen |
| Report.WithCount | logic/rankings.py:157 | the count is recorded at city/period/style; a city or period table missing before is created holding exactly that one count; every other city, period and style keeps its count |
| Report.WithCountNoEmptyLevels | logic/rankings.py:157 | `setdefault` never leaves an empty city or period behind |
| Report.RebuiltHolds | logic/rankings.py:156-157 | every name that parses is found at its place with its counter value |
| Report.RebuiltEntry | logic/rankings.py:153-157 | every entry of the table is the value of the counter written for its place |
| Report.RebuiltUnique | logic/rankings.py:153-157 | the table does not depend on the order the counter map is iterated in |
| Report.RebuiltReadBack | logic/rankings.py:122-157 | a counter incremented under a `/`-free (region, period, style) is read back at exactly that place |
| Report.RebuiltIgnoresOtherCounters | logic/rankings.py:154-155 | adding or changing a counter whose name lacks exactly two `/` does not change the table |
| Report.LatestSuccessful | logic/rankings.py:148-150 | none iff no run of the app succeeded; otherwise a successful run of the app with the latest start time |
| Report.GetRankings | logic/rankings.py:148-158 | for job `app_id`: none iff no run of it succeeded; otherwise the rebuild of the counters of a latest successful run |
| Report.GetEventRankings | logic/rankings.py:147-158 | the same for the `EVENT_RANKING` job |
| Report.GetUserRankings | logic/rankings.py:160-171 | the same for the `USER_RANKING` job |
| Leaderboard.CitySumRemove | logic/rankings.py:176-178 | the sum over cities may take out any city first, so it does not depend on iteration order |
| Leaderboard.ComputeSum | logic/rankings.py:173-179 | the total is the sum over `toplevel` styles and over all cities of the count at period and style, a missing entry counting 0; an empty `toplevel` gives 0 |
| Leaderboard.TotalAppend | logic/rankings.py:175-178 | the total over a concatenation of style lists is the sum of the totals |
| Leaderboard.TotalNonNegative | logic/rankings.py:173-179 | with non-negative counters the total is non-negative |
| Leaderboard.CountAt | logic/rankings.py:177 | the stored count when city, period and style are all present, 0 otherwise; a nonzero count means the entry exists |
| Leaderboard.TotalIsEveryCount | logic/rankings.py:173-179 | when `toplevel` lists every style present in the period exactly once, the total is the sum of every count of that period in every city (a style listed twice would count twice) |
| Leaderboard.FreestyleFilter | logic/rankings.py:190 | freestyle filter is apathy exactly for the choreo style, the freestyle-dancer value otherwise |
| Leaderboard.ChoreoFilter | logic/rankings.py:191 | choreo filter is apathy exactly for the freestyle style, the choreo-dancer value otherwise |
| Leaderboard.RankingUrl | logic/rankings.py:193 | the link begins with `/?user_location=<city>&` and ends with `freestyle=<FreestyleFilter(style)>&choreo=<ChoreoFilter(style)>` |
| Leaderboard.RankingUrlDeterminesCity | logic/rankings.py:193 | for one style, different cities get different links |
| Leaderboard.CandidatesStep | logic/rankings.py:185-196 | one more city visited adds its entry to the list's multiset exactly when it qualifies |
| Leaderboard.CityRanking | logic/rankings.py:184-197 | the leaderboard is sorted by non-increasing count and is a permutation of the entries of the cities that are not `Unknown` and have a nonzero count |
| Leaderboard.TemplateRankings | logic/rankings.py:181-199 | one leaderboard per `toplevel` style, in order, each tagged with its style and each a leaderboard as above |
| Leaderboard.RankingEntries | logic/rankings.py:186-196 | every entry is a known city other than `Unknown`, with its nonzero count. Its url is none iff `use_url` is false, and is otherwise the filter link |
| Leaderboard.RankingCovers | logic/rankings.py:185-196 | every city other than `Unknown` with a nonzero count is on the leaderboard |
| Leaderboard.RankingCitiesDistinct | logic/rankings.py:185-196 | no city appears twice on a leaderboard |
| Leaderboard.ExampleNycBeforeSf | logic/rankings.py:197 | with NYC at 10 and SF at 5, the leaderboard is NYC then SF |
| Sorting.Sort | logic/rankings.py:197 | the result is sorted and is a permutation of the input |
| Sorting.SortedUnique | loc/gmaps_cached.py:18 | under a total order two sorted permutations of one multiset are equal |
| Sorting.SortPermutationInvariant | loc/gmaps_cached.py:18 | under a total order sorting depends only on the multiset of its input |
| GeocodeKey.StripLeft | loc/gmaps_cached.py:18 | the result is a suffix not starting with white space, and what was removed is all white space |
| GeocodeKey.StripRight | loc/gmaps_cached.py:18 | the result is a prefix not ending with white space, and what was removed is all white space |
| GeocodeKey.Lower | loc/gmaps_cached.py:18 | no capital ASCII letter is left, only capitals change, the length is kept and white space stays where it was |
| GeocodeKey.LowerIdempotent | loc/gmaps_cached.py:18 | lowering twice is lowering once |
| GeocodeKey.Normalize | loc/gmaps_cached.py:18 | the normalized value neither begins nor ends with white space and holds no capital ASCII letter |
| GeocodeKey.NormalizeIdempotent | loc/gmaps_cached.py:18 | normalizing a normalized value changes nothing |
| GeocodeKey.LexTotalOrder | loc/gmaps_cached.py:18 | string comparison is a total order, so `sorted` has one result per multiset of parts |
| GeocodeKey.Key | loc/gmaps_cached.py:15-18 | the key is an error (`ValueError`) iff there are no arguments |
| GeocodeKey.KeyOrderIndependent | loc/gmaps_cached.py:18 | arguments passed in any order give the same key |
| GeocodeKey.StripPadding | loc/gmaps_cached.py:18 | surrounding white space does not change the stripped value |
| GeocodeKey.LowerStripCommute | loc/gmaps_cached.py:18 | lowering and stripping commute |
| GeocodeKey.NormalizeIgnoresCaseAndPadding | loc/gmaps_cached.py:18 | values that differ only in letter case and surrounding white space normalize alike |
| GeocodeKey.KeyNormalizedValues | loc/gmaps_cached.py:18 | arguments with the same names and alike normalized values give the same key |
| GeocodeKey.EscapeInjective | loc/gmaps_cached.py:18 | the quoting escape is injective |
| GeocodeKey.Quote | loc/gmaps_cached.py:18 | the quoted value is delimited by `u'` and `'` and is at least 3 characters longer than the value; QuotedInjective shows it determines the value |
| GeocodeKey.Part | loc/gmaps_cached.py:18 | a part begins with `name=u'` and ends with `'` |
| GeocodeKey.QuotedInjective | loc/gmaps_cached.py:18 | `name=<quoted value>` determines the value |
| GeocodeKey.SingleArgumentKey | loc/gmaps_cached.py:15-18 | one argument's key is `name=<quoted normalized value>`, and two values give the same key iff they normalize alike |
| GeocodeCache.GeoCache.FetchRaw | loc/gmaps_cached.py:22-29 | no arguments: an error and nothing changes. Hit: the stored JSON, with the table and the service log unchanged. Miss: the service's answer, stored under the key with the current time and logged as one service call. No other entry changes, and afterwards the key is present and holds the returned JSON |
| GeocodeCache.GeoCache.WriteCache | loc/gmaps_cached.py:32-38 | never calls the service and never replaces an entry. Hit: the stored entity, with the table unchanged. Miss: a new entity with the given JSON dated 2010-01-01, stored under the key. Either way the returned entity is what the table now holds |
| GeocodeCache.EquivalentRequestsShareEntry | loc/gmaps_cached.py:18-29 | a request rearranged, or with values differing only in case and padding, has the same key, so it hits the entry the first one stored |
| GeocodeCache.FetchEquivalentTwice | loc/gmaps_cached.py:22-29 | fetching a request and then an equivalent one gives the same answer twice; the service is asked at most once, for the first; no stored entry changes, and at most the first request's key is added |

## Left out

- `begin_ranking_calculations` and the mapreduce engine: they start distributed jobs. The model starts from a job's flat counter map. A job's total for a name is assumed to be the number of its increments; how the engine sums increments is not modelled.
- The datastore query for the latest successful job is modelled as a selection over a sequence of job records (`Report.LatestSuccessful`). Ties in start time are resolved to one of the tied runs, not to a particular one.
- `datetime.datetime.now()`: the clock is a parameter. Timestamps are integers in microseconds. `get_time_periods` reads the clock twice; `Classifier.TimePeriodsAt` takes the two readings apart, and the other members use one reading for both.
- `cities.get_largest_nearby_city_name`: the nearest-city lookup is a function parameter. Its results are not known to be `/`-free, so the read-back lemmas require that; distinctness of a mapper's names holds for any city.
- The string values of the constants defined in `events/tags.py` and `events/users.py` are not part of this model. They are modelled by their identifiers (for example `FREESTYLE_EVENT`); only their distinctness and freedom from `/` are used.
- Mapper.CountUser: a user whose creation time is unset (where the source would fail comparing it with a date) is not modelled; creation time is always an integer.
- Classifier.User: a preference holding none of the three known values is modelled as `Other`. Such a user is a `DANCE_FAN`, as the source's inequality tests make it.
- `string_translations`: display text only.
- `LOCATION_EXPIRY`: defined but never used, so no expiry is modelled.
- The leaderboard order among equal counts depends on dict iteration order. The model promises only non-increasing counts and the right entries.
- GeocodeKey.Normalize: `unicode(v)` of a non-string value is not modelled; values are given as text. `strip()` uses Python 2.7's unicode white space. `lower()` lowers only the ASCII letters A–Z; other letters keep their case.
- GeocodeKey.Quote: `%r` of a unicode string is modelled as `u'…'` with backslash and single quote escaped. Python's choice of double quotes and its escapes for non-printable and non-ASCII characters are not modelled. Only injectivity is relied on.
- GeocodeCache.GeoCache.FetchRaw: a failing geocoding call (an exception from the service) is not modelled; the service is a total function of the arguments. The `put()` is modelled as an immediate, non-concurrent update of the table.
- `CachedGeoCode.address`: the property parses the key name as an integer and is never used by the code modelled here.
