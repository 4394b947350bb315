/**
 * The ranking reporter of logic/rankings.py: `compute_sum`, the total of the
 * counts of some styles over all cities, and `compute_template_rankings`, one
 * city leaderboard per style sorted by descending count.
 */
module Leaderboard {
  import opened Wrappers
  import opened Taxonomy
  import opened Sorting
  import opened Report
  import opened Sequences

  /** `all_rankings[city].get(period, {}).get(style, 0)`, with 0 also for a city not in the rankings. */
  function CountAt(r: Rankings, city: string, period: string, style: string): (n: int)
    ensures city in r && period in r[city] && style in r[city][period] ==> n == r[city][period][style]
    ensures n != 0 ==> city in r && period in r[city] && style in r[city][period]
  {
    if city in r && period in r[city] && style in r[city][period] then r[city][period][style] else 0
  }

  /** The sum of the counts of `style` in `period` over `cities`. */
  ghost function CitySum(r: Rankings, cities: set<string>, period: string, style: string): int
    decreases cities
  {
    if cities == {} then 0
    else
      var c :| c in cities;
      CountAt(r, c, period, style) + CitySum(r, cities - {c}, period, style)
  }

  /** Any city can be taken out of the sum first. */
  lemma {:induction false} CitySumRemove(r: Rankings, cities: set<string>, period: string, style: string, c: string)
    requires c in cities
    ensures CitySum(r, cities, period, style) == CountAt(r, c, period, style) + CitySum(r, cities - {c}, period, style)
    decreases cities
  {
    var d :| d in cities && CitySum(r, cities, period, style) == CountAt(r, d, period, style) + CitySum(r, cities - {d}, period, style);
    if d != c {
      CitySumRemove(r, cities - {d}, period, style, c);
      CitySumRemove(r, cities - {c}, period, style, d);
      assert cities - {d} - {c} == cities - {c} - {d};
    }
  }

  /** The sum over `styles` (in order) of the counts of each style in `period` over `cities`. */
  ghost function TotalOver(r: Rankings, cities: set<string>, styles: seq<string>, period: string): int
  {
    if styles == [] then 0
    else TotalOver(r, cities, styles[..|styles| - 1], period) + CitySum(r, cities, period, styles[|styles| - 1])
  }

  /** The sum over `styles` (in order) of the counts of each style in `period` over all cities. */
  ghost function Total(r: Rankings, styles: seq<string>, period: string): int
  {
    TotalOver(r, r.Keys, styles, period)
  }

  /** `compute_sum(all_rankings, toplevel, time_period)`. */
  method ComputeSum(r: Rankings, toplevel: seq<string>, period: string) returns (total: int)
    ensures total == Total(r, toplevel, period)
  {
    total := 0;
    for i := 0 to |toplevel|
      invariant total == Total(r, toplevel[..i], period)
    {
      var style := toplevel[i];
      ghost var before := total;
      var remaining := r.Keys;
      while remaining != {}
        invariant remaining <= r.Keys
        invariant total + CitySum(r, remaining, period, style) == before + CitySum(r, r.Keys, period, style)
        decreases remaining
      {
        var city :| city in remaining;
        CitySumRemove(r, remaining, period, style, city);
        total := total + CountAt(r, city, period, style);
        remaining := remaining - {city};
      }
      assert toplevel[..i + 1][..i] == toplevel[..i];
    }
    assert toplevel[..|toplevel|] == toplevel;
  }

  /** Sums over a concatenation of style lists add up. */
  lemma {:induction false} TotalAppend(r: Rankings, a: seq<string>, b: seq<string>, period: string)
    ensures Total(r, a + b, period) == Total(r, a, period) + Total(r, b, period)
  {
    if b == [] {
      assert a + b == a;
    } else {
      TotalAppend(r, a, b[..|b| - 1], period);
      assert (a + b)[..|a + b| - 1] == a + b[..|b| - 1];
    }
  }

  lemma {:induction false} CitySumNonNegative(r: Rankings, cities: set<string>, period: string, style: string)
    requires forall c, p, s :: c in r && p in r[c] && s in r[c][p] ==> r[c][p][s] >= 0
    ensures CitySum(r, cities, period, style) >= 0
    decreases cities
  {
    if cities != {} {
      var c :| c in cities;
      CitySumRemove(r, cities, period, style, c);
      CitySumNonNegative(r, cities - {c}, period, style);
    }
  }

  /** Counter values are numbers of increments, so a sum of them is never negative. */
  lemma {:induction false} TotalNonNegative(r: Rankings, styles: seq<string>, period: string)
    requires forall c, p, s :: c in r && p in r[c] && s in r[c][p] ==> r[c][p][s] >= 0
    ensures Total(r, styles, period) >= 0
  {
    if styles != [] {
      TotalNonNegative(r, styles[..|styles| - 1], period);
      CitySumNonNegative(r, r.Keys, period, styles[|styles| - 1]);
    }
  }

  // Summing city by city instead of style by style.

  /** The counts of one city in `period` over `styles` (in order). */
  function StyleTotal(r: Rankings, city: string, period: string, styles: seq<string>): int
  {
    if styles == [] then 0
    else StyleTotal(r, city, period, styles[..|styles| - 1]) + CountAt(r, city, period, styles[|styles| - 1])
  }

  /** The sum of the counts of a style table at `keys`. */
  ghost function TableSum(m: map<string, int>, keys: set<string>): int
    requires keys <= m.Keys
    decreases keys
  {
    if keys == {} then 0
    else
      var s :| s in keys;
      m[s] + TableSum(m, keys - {s})
  }

  lemma {:induction false} TableSumRemove(m: map<string, int>, keys: set<string>, s: string)
    requires keys <= m.Keys && s in keys
    ensures TableSum(m, keys) == m[s] + TableSum(m, keys - {s})
    decreases keys
  {
    var t :| t in keys && TableSum(m, keys) == m[t] + TableSum(m, keys - {t});
    if t != s {
      TableSumRemove(m, keys - {t}, s);
      TableSumRemove(m, keys - {s}, t);
      assert keys - {t} - {s} == keys - {s} - {t};
    }
  }

  /** Everything counted in `period` in one city, whatever the style. */
  ghost function CityPeriodTotal(r: Rankings, city: string, period: string): int
  {
    if city in r && period in r[city] then TableSum(r[city][period], r[city][period].Keys) else 0
  }

  /** Everything counted in `period` over `cities`, whatever the style. */
  ghost function PeriodTotal(r: Rankings, cities: set<string>, period: string): int
    decreases cities
  {
    if cities == {} then 0
    else
      var c :| c in cities;
      CityPeriodTotal(r, c, period) + PeriodTotal(r, cities - {c}, period)
  }

  lemma {:induction false} PeriodTotalRemove(r: Rankings, cities: set<string>, period: string, c: string)
    requires c in cities
    ensures PeriodTotal(r, cities, period) == CityPeriodTotal(r, c, period) + PeriodTotal(r, cities - {c}, period)
    decreases cities
  {
    var d :| d in cities && PeriodTotal(r, cities, period) == CityPeriodTotal(r, d, period) + PeriodTotal(r, cities - {d}, period);
    if d != c {
      PeriodTotalRemove(r, cities - {d}, period, c);
      PeriodTotalRemove(r, cities - {c}, period, d);
      assert cities - {d} - {c} == cities - {c} - {d};
    }
  }

  lemma {:induction false} TotalOverNoCity(r: Rankings, styles: seq<string>, period: string)
    ensures TotalOver(r, {}, styles, period) == 0
  {
    if styles != [] {
      TotalOverNoCity(r, styles[..|styles| - 1], period);
    }
  }

  /** Taking one city out of every per-style sum takes out its counts over all the styles. */
  lemma {:induction false} TotalOverRemove(r: Rankings, cities: set<string>, styles: seq<string>, period: string, c: string)
    requires c in cities
    ensures TotalOver(r, cities, styles, period) == StyleTotal(r, c, period, styles) + TotalOver(r, cities - {c}, styles, period)
  {
    if styles != [] {
      TotalOverRemove(r, cities, styles[..|styles| - 1], period, c);
      CitySumRemove(r, cities, period, styles[|styles| - 1], c);
    }
  }

  lemma {:induction false} StyleTotalNoTable(r: Rankings, city: string, period: string, styles: seq<string>)
    requires !(city in r && period in r[city])
    ensures StyleTotal(r, city, period, styles) == 0
  {
    if styles != [] {
      StyleTotalNoTable(r, city, period, styles[..|styles| - 1]);
    }
  }

  /** Summing a city's table over distinct styles sums the listed styles it has. */
  lemma {:induction false} StyleTotalTable(r: Rankings, city: string, period: string, styles: seq<string>)
    requires city in r && period in r[city] && Distinct(styles)
    ensures var m := r[city][period];
            StyleTotal(r, city, period, styles) == TableSum(m, set s | s in styles && s in m)
  {
    var m := r[city][period];
    if styles == [] {
      assert (set s | s in styles && s in m) == {};
    } else {
      var xs, x := styles[..|styles| - 1], styles[|styles| - 1];
      DistinctInit(styles);
      StyleTotalTable(r, city, period, xs);
      TableStep(m, styles, x);
    }
  }

  /** The listed styles present in `m` gain the last style exactly when `m` has it, and then only it. */
  lemma TableStep(m: map<string, int>, styles: seq<string>, x: string)
    requires styles != [] && x == styles[|styles| - 1] && x !in styles[..|styles| - 1]
    ensures var keys, keys' := set s | s in styles && s in m, set s | s in styles[..|styles| - 1] && s in m;
            TableSum(m, keys) == (if x in m then m[x] else 0) + TableSum(m, keys')
  {
    var xs := styles[..|styles| - 1];
    var keys, keys' := set s | s in styles && s in m, set s | s in xs && s in m;
    assert styles == xs + [x];
    if x in m {
      assert keys - {x} == keys';
      TableSumRemove(m, keys, x);
    } else {
      assert keys == keys';
    }
  }

  /** With every style of the city's table listed once, its counts over the styles are all it counted. */
  lemma StyleTotalCity(r: Rankings, city: string, period: string, styles: seq<string>)
    requires Distinct(styles)
    requires city in r && period in r[city] ==> forall s :: s in r[city][period] ==> s in styles
    ensures StyleTotal(r, city, period, styles) == CityPeriodTotal(r, city, period)
  {
    if city in r && period in r[city] {
      var m := r[city][period];
      StyleTotalTable(r, city, period, styles);
      assert (set s | s in styles && s in m) == m.Keys;
    } else {
      StyleTotalNoTable(r, city, period, styles);
    }
  }

  lemma {:induction false} TotalOverAllStyles(r: Rankings, cities: set<string>, styles: seq<string>, period: string)
    requires Distinct(styles)
    requires forall c, s :: c in r && period in r[c] && s in r[c][period] ==> s in styles
    ensures TotalOver(r, cities, styles, period) == PeriodTotal(r, cities, period)
    decreases cities
  {
    if cities == {} {
      TotalOverNoCity(r, styles, period);
    } else {
      var c :| c in cities;
      TotalOverRemove(r, cities, styles, period, c);
      PeriodTotalRemove(r, cities, period, c);
      StyleTotalCity(r, c, period, styles);
      TotalOverAllStyles(r, cities - {c}, styles, period);
    }
  }

  /**
   * When `toplevel` lists every style present in `period` exactly once, `compute_sum`
   * is the sum of every count of `period` in every city. A style listed twice would
   * be counted twice, and a style left out not at all.
   */
  lemma TotalIsEveryCount(r: Rankings, toplevel: seq<string>, period: string)
    requires Distinct(toplevel)
    requires forall c, s :: c in r && period in r[c] && s in r[c][period] ==> s in toplevel
    ensures Total(r, toplevel, period) == PeriodTotal(r, r.Keys, period)
  {
    TotalOverAllStyles(r, r.Keys, toplevel, period);
  }

  // Leaderboards.

  datatype CityRank = CityRank(city: string, count: int, url: Option<string>)

  datatype StyleRanking = StyleRanking(style: string, ranking: seq<CityRank>)

  /** The freestyle preference a ranking link filters on: apathy only for the choreo style. */
  function FreestyleFilter(style: string): (f: string)
    ensures f == FREESTYLE_APATHY <==> style == CHOREO_EVENT
    ensures f == FREESTYLE_APATHY || f == FreestyleDancer.Name()
  {
    if style != CHOREO_EVENT then FreestyleDancer.Name() else FREESTYLE_APATHY
  }

  /** The choreo preference a ranking link filters on: apathy only for the freestyle style. */
  function ChoreoFilter(style: string): (f: string)
    ensures f == CHOREO_APATHY <==> style == FREESTYLE_EVENT
    ensures f == CHOREO_APATHY || f == ChoreoDancer.Name()
  {
    if style != FREESTYLE_EVENT then ChoreoDancer.Name() else CHOREO_APATHY
  }

  /** The link of a leaderboard entry: the city's search, filtered on the dancers of the style. */
  function RankingUrl(city: string, style: string): (u: string)
    ensures "/?user_location=" + city + "&" <= u
    ensures var tail := "freestyle=" + FreestyleFilter(style) + "&choreo=" + ChoreoFilter(style);
            |tail| <= |u| && u[|u| - |tail|..] == tail
  {
    var filters := "freestyle=" + FreestyleFilter(style) + "&choreo=" + ChoreoFilter(style);
    var rest := "&distance=100&distance_units=km&" + filters;
    assert rest == "&" + rest[1..];
    "/?user_location=" + city + rest
  }

  /** For one style the link determines the city: different cities get different links. */
  lemma RankingUrlDeterminesCity(city1: string, city2: string, style: string)
    requires RankingUrl(city1, style) == RankingUrl(city2, style)
    ensures city1 == city2
  {
    var filters := "freestyle=" + FreestyleFilter(style) + "&choreo=" + ChoreoFilter(style);
    var rest := "&distance=100&distance_units=km&" + filters;
    FramedEqual("/?user_location=", city1, city2, rest);
  }

  /** The same text around two strings makes them equal only if they are. */
  lemma FramedEqual(p: string, a: string, b: string, s: string)
    requires p + a + s == p + b + s
    ensures a == b
  {
    assert |a| == |b|;
    assert a == (p + a + s)[|p|..|p| + |a|];
    assert b == (p + b + s)[|p|..|p| + |b|];
  }

  /** The leaderboard entry of `city`. */
  function EntryFor(r: Rankings, city: string, period: string, style: string, useUrl: bool): CityRank
  {
    CityRank(city, CountAt(r, city, period, style), if useUrl then Some(RankingUrl(city, style)) else None)
  }

  /** A city is ranked when it is known and has a nonzero count. */
  predicate Qualifies(r: Rankings, city: string, period: string, style: string)
  {
    city in r && city != UNKNOWN_REGION && CountAt(r, city, period, style) != 0
  }

  /** The entries of the qualifying cities among `cities`. */
  ghost function Candidates(r: Rankings, cities: set<string>, period: string, style: string, useUrl: bool): set<CityRank>
  {
    set c | c in cities && Qualifies(r, c, period, style) :: EntryFor(r, c, period, style, useUrl)
  }

  /** The sort key of the leaderboard: a larger count comes first. */
  function ByCountDesc(a: CityRank, b: CityRank): bool
  {
    a.count >= b.count
  }

  lemma ByCountDescIsPreorder()
    ensures TotalPreorder(ByCountDesc)
  {
  }

  /** `ranking` is the leaderboard of `style`: the qualifying cities' entries, by descending count. */
  ghost predicate IsRanking(r: Rankings, period: string, style: string, useUrl: bool, ranking: seq<CityRank>)
  {
    Sorted(ranking, ByCountDesc) && multiset(ranking) == multiset(Candidates(r, r.Keys, period, style, useUrl))
  }

  /** One more city visited: its entry joins the list exactly when it qualifies. */
  lemma CandidatesStep(r: Rankings, done: set<string>, city: string, period: string, style: string, useUrl: bool, before: seq<CityRank>)
    requires city !in done
    requires multiset(before) == multiset(Candidates(r, done, period, style, useUrl))
    ensures Qualifies(r, city, period, style) ==>
              multiset(before + [EntryFor(r, city, period, style, useUrl)]) ==
              multiset(Candidates(r, done + {city}, period, style, useUrl))
    ensures !Qualifies(r, city, period, style) ==>
              multiset(before) == multiset(Candidates(r, done + {city}, period, style, useUrl))
  {
  }

  /** The inner loop of `compute_template_rankings` for one style, then the sort. */
  method CityRanking(r: Rankings, period: string, style: string, useUrl: bool) returns (ranking: seq<CityRank>)
    ensures IsRanking(r, period, style, useUrl, ranking)
  {
    var cityRanking: seq<CityRank> := [];
    var remaining := r.Keys;
    while remaining != {}
      invariant remaining <= r.Keys
      invariant multiset(cityRanking) == multiset(Candidates(r, r.Keys - remaining, period, style, useUrl))
      decreases remaining
    {
      var city :| city in remaining;
      ghost var done := r.Keys - remaining;
      CandidatesStep(r, done, city, period, style, useUrl, cityRanking);
      remaining := remaining - {city};
      assert r.Keys - remaining == done + {city};
      if city == UNKNOWN_REGION {
        continue;
      }
      var count := CountAt(r, city, period, style);
      if count != 0 {
        var url: Option<string>;
        if useUrl {
          url := Some(RankingUrl(city, style));
        } else {
          url := None;
        }
        assert CityRank(city, count, url) == EntryFor(r, city, period, style, useUrl);
        cityRanking := cityRanking + [CityRank(city, count, url)];
      }
    }
    ByCountDescIsPreorder();
    ranking := Sort(cityRanking, ByCountDesc);
  }

  /** `compute_template_rankings(all_rankings, toplevel, time_period, use_url)`. */
  method TemplateRankings(r: Rankings, toplevel: seq<string>, period: string, useUrl: bool) returns (rankings: seq<StyleRanking>)
    ensures |rankings| == |toplevel|
    ensures forall i :: 0 <= i < |toplevel| ==>
              rankings[i].style == toplevel[i] && IsRanking(r, period, toplevel[i], useUrl, rankings[i].ranking)
  {
    rankings := [];
    for i := 0 to |toplevel|
      invariant |rankings| == i
      invariant forall j :: 0 <= j < i ==>
                  rankings[j].style == toplevel[j] && IsRanking(r, period, toplevel[j], useUrl, rankings[j].ranking)
    {
      var cityRanking := CityRanking(r, period, toplevel[i], useUrl);
      rankings := rankings + [StyleRanking(toplevel[i], cityRanking)];
    }
  }

  /** Every leaderboard entry is a known city with a nonzero count, its true count and its link. */
  lemma RankingEntries(r: Rankings, period: string, style: string, useUrl: bool, ranking: seq<CityRank>, k: int)
    requires IsRanking(r, period, style, useUrl, ranking)
    requires 0 <= k < |ranking|
    ensures ranking[k].city in r && ranking[k].city != UNKNOWN_REGION && ranking[k].count != 0
    ensures ranking[k].count == CountAt(r, ranking[k].city, period, style)
    ensures ranking[k].url.None? <==> !useUrl
    ensures useUrl ==> ranking[k].url == Some(RankingUrl(ranking[k].city, style))
  {
    assert ranking[k] in multiset(ranking);
    assert ranking[k] in Candidates(r, r.Keys, period, style, useUrl);
  }

  /** Every known city with a nonzero count is on the leaderboard. */
  lemma RankingCovers(r: Rankings, period: string, style: string, useUrl: bool, ranking: seq<CityRank>, city: string)
    requires IsRanking(r, period, style, useUrl, ranking)
    requires Qualifies(r, city, period, style)
    ensures exists k :: 0 <= k < |ranking| && ranking[k] == EntryFor(r, city, period, style, useUrl)
  {
    var e := EntryFor(r, city, period, style, useUrl);
    assert e in Candidates(r, r.Keys, period, style, useUrl);
    assert e in multiset(ranking);
  }

  lemma MultiplicityOfRepeat<T>(s: seq<T>, a: int, b: int)
    requires 0 <= a < b < |s| && s[a] == s[b]
    ensures multiset(s)[s[a]] >= 2
  {
    assert s == s[..b] + s[b..];
    assert s[a] in s[..b];
    assert s[b..][0] == s[a];
    assert multiset(s) == multiset(s[..b]) + multiset(s[b..]);
  }

  /** No city appears twice on a leaderboard. */
  lemma RankingCitiesDistinct(r: Rankings, period: string, style: string, useUrl: bool, ranking: seq<CityRank>, a: int, b: int)
    requires IsRanking(r, period, style, useUrl, ranking)
    requires 0 <= a < b < |ranking|
    ensures ranking[a].city != ranking[b].city
  {
    if ranking[a].city == ranking[b].city {
      RankingEntries(r, period, style, useUrl, ranking, a);
      RankingEntries(r, period, style, useUrl, ranking, b);
      assert ranking[a] == ranking[b];
      MultiplicityOfRepeat(ranking, a, b);
    }
  }

  /** Two cities, NYC with 10 and SF with 5 all-time events of any style: NYC ranks first. */
  lemma ExampleNycBeforeSf(ranking: seq<CityRank>)
    requires IsRanking(ExampleRankings(), "ALL_TIME", "ANY_STYLE", true, ranking)
    ensures |ranking| == 2
    ensures ranking[0].city == "NYC" && ranking[0].count == 10
    ensures ranking[1].city == "SF" && ranking[1].count == 5
  {
    var r := ExampleRankings();
    var nyc := EntryFor(r, "NYC", "ALL_TIME", "ANY_STYLE", true);
    var sf := EntryFor(r, "SF", "ALL_TIME", "ANY_STYLE", true);
    assert Qualifies(r, "NYC", "ALL_TIME", "ANY_STYLE") && Qualifies(r, "SF", "ALL_TIME", "ANY_STYLE");
    assert Candidates(r, r.Keys, "ALL_TIME", "ANY_STYLE", true) == {nyc, sf};
    assert multiset(ranking) == multiset{nyc, sf};
    assert |ranking| == 2;
    assert ranking[0] in multiset(ranking) && ranking[1] in multiset(ranking);
  }

  function ExampleRankings(): Rankings
  {
    map["SF" := map["ALL_TIME" := map["ANY_STYLE" := 5]], "NYC" := map["ALL_TIME" := map["ANY_STYLE" := 10]]]
  }
}
