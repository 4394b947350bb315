/**
 * Reading a finished counting job back: the choice of the latest successful run
 * and the rebuilding of its flat counter map into city -> period -> style -> count
 * (`get_event_rankings` and `get_user_rankings`, which share one body).
 */
module Report {
  import opened Wrappers
  import opened Strings
  import opened CounterKeys
  import opened Taxonomy

  /** city -> time period -> style or segment -> count */
  type Rankings = map<string, map<string, map<string, int>>>

  /** The count for `key` is recorded in `r` and equals `v`. */
  predicate Holds(r: Rankings, key: CounterKey, v: int)
  {
    key.region in r && key.period in r[key.region] && key.style in r[key.region][key.period] &&
    r[key.region][key.period][key.style] == v
  }

  /** No city and no period maps to an empty table (`setdefault` creates a table only to fill it). */
  ghost predicate NoEmptyLevels(r: Rankings)
  {
    (forall c :: c in r ==> exists p, s :: p in r[c] && s in r[c][p]) &&
    (forall c, p :: c in r && p in r[c] ==> exists s :: s in r[c][p])
  }

  /**
   * `r` holds exactly the counters named in `names` that read as keys: each such
   * counter at its place, and nothing that does not come from one of them.
   */
  ghost predicate RebuiltFrom(counters: map<string, int>, names: set<string>, r: Rankings)
    requires names <= counters.Keys
  {
    (forall k :: k in names && Parse(k).Some? ==> Holds(r, Parse(k).value, counters[k])) &&
    (forall c, p, s :: c in r && p in r[c] && s in r[c][p] ==>
       var name := CounterKey(c, p, s).Serialize();
       name in names && Parse(name) == Some(CounterKey(c, p, s)) && counters[name] == r[c][p][s]) &&
    NoEmptyLevels(r)
  }

  ghost predicate Rebuilt(counters: map<string, int>, r: Rankings)
  {
    RebuiltFrom(counters, counters.Keys, r)
  }

  /**
   * `cities.setdefault(region, {}).setdefault(period, {})[style] = v`: the count is
   * recorded, the city and period tables are created only when missing, and every
   * other city, period and style keeps its count.
   */
  function WithCount(r: Rankings, key: CounterKey, v: int): (r': Rankings)
    ensures Holds(r', key, v)
    ensures r'.Keys == r.Keys + {key.region}
    ensures forall c :: c in r && c != key.region ==> r'[c] == r[c]
    ensures key.region in r ==> r'[key.region].Keys == r[key.region].Keys + {key.period}
    ensures key.region in r ==>
              forall p :: p in r[key.region] && p != key.period ==> r'[key.region][p] == r[key.region][p]
    ensures key.region in r && key.period in r[key.region] ==>
              r'[key.region][key.period].Keys == r[key.region][key.period].Keys + {key.style}
    ensures key.region in r && key.period in r[key.region] ==>
              forall s :: s in r[key.region][key.period] && s != key.style ==>
                r'[key.region][key.period][s] == r[key.region][key.period][s]
    ensures key.region !in r ==> r'[key.region] == map[key.period := map[key.style := v]]
    ensures key.region in r && key.period !in r[key.region] ==> r'[key.region][key.period] == map[key.style := v]
  {
    var byPeriod := if key.region in r then r[key.region] else map[];
    var byStyle := if key.period in byPeriod then byPeriod[key.period] else map[];
    r[key.region := byPeriod[key.period := byStyle[key.style := v]]]
  }

  /** The counter-map loop of `get_event_rankings` / `get_user_rankings`, in any key order. */
  method BuildRankings(counters: map<string, int>) returns (cities: Rankings)
    ensures Rebuilt(counters, cities)
  {
    cities := map[];
    var remaining := counters.Keys;
    while remaining != {}
      invariant remaining <= counters.Keys
      invariant RebuiltFrom(counters, counters.Keys - remaining, cities)
      decreases remaining
    {
      var k :| k in remaining;
      ghost var done := counters.Keys - remaining;
      remaining := remaining - {k};
      assert counters.Keys - remaining == done + {k};
      if Count(k, '/') != 2 {
        SkipPreserves(counters, done, cities, k);
        continue;
      }
      var parts := Split(k, '/');
      var city, period, style := parts[0], parts[1], parts[2];
      assert Parse(k) == Some(CounterKey(city, period, style));
      InsertPreserves(counters, done, cities, k);
      cities := WithCount(cities, CounterKey(city, period, style), counters[k]);
    }
  }

  lemma SkipPreserves(counters: map<string, int>, done: set<string>, r: Rankings, k: string)
    requires done <= counters.Keys && k in counters && Parse(k).None?
    requires RebuiltFrom(counters, done, r)
    ensures RebuiltFrom(counters, done + {k}, r)
  {
  }

  lemma InsertPreserves(counters: map<string, int>, done: set<string>, r: Rankings, k: string)
    requires done <= counters.Keys && k in counters && k !in done && Parse(k).Some?
    requires RebuiltFrom(counters, done, r)
    ensures RebuiltFrom(counters, done + {k}, WithCount(r, Parse(k).value, counters[k]))
  {
    InsertKeepsCounts(counters, done, r, k);
    InsertAddsOnlyKey(counters, done, r, k);
    WithCountNoEmptyLevels(r, Parse(k).value, counters[k]);
  }

  lemma InsertKeepsCounts(counters: map<string, int>, done: set<string>, r: Rankings, k: string)
    requires done <= counters.Keys && k in counters && k !in done && Parse(k).Some?
    requires forall k' :: k' in done && Parse(k').Some? ==> Holds(r, Parse(k').value, counters[k'])
    ensures var r' := WithCount(r, Parse(k).value, counters[k]);
            forall k' :: k' in done + {k} && Parse(k').Some? ==> Holds(r', Parse(k').value, counters[k'])
  {
    var key := Parse(k).value;
    var r' := WithCount(r, key, counters[k]);
    forall k' | k' in done + {k} && Parse(k').Some? ensures Holds(r', Parse(k').value, counters[k']) {
      if k' != k {
        SerializeParse(k);
        SerializeParse(k');
        HoldsOther(r, key, counters[k], Parse(k').value, counters[k']);
      }
    }
  }

  lemma InsertAddsOnlyKey(counters: map<string, int>, done: set<string>, r: Rankings, k: string)
    requires done <= counters.Keys && k in counters && Parse(k).Some?
    requires forall c, p, s :: c in r && p in r[c] && s in r[c][p] ==>
               var name := CounterKey(c, p, s).Serialize();
               name in done && Parse(name) == Some(CounterKey(c, p, s)) && counters[name] == r[c][p][s]
    ensures var r' := WithCount(r, Parse(k).value, counters[k]);
            forall c, p, s :: c in r' && p in r'[c] && s in r'[c][p] ==>
              var name := CounterKey(c, p, s).Serialize();
              name in done + {k} && Parse(name) == Some(CounterKey(c, p, s)) && counters[name] == r'[c][p][s]
  {
    var key := Parse(k).value;
    var r' := WithCount(r, key, counters[k]);
    forall c, p, s | c in r' && p in r'[c] && s in r'[c][p]
      ensures var name := CounterKey(c, p, s).Serialize();
              name in done + {k} && Parse(name) == Some(CounterKey(c, p, s)) && counters[name] == r'[c][p][s]
    {
      if CounterKey(c, p, s) == key {
        SerializeParse(k);
      } else {
        EntryOfWithCount(r, key, counters[k], CounterKey(c, p, s));
      }
    }
  }

  lemma WithCountNoEmptyLevels(r: Rankings, key: CounterKey, v: int)
    requires NoEmptyLevels(r)
    ensures NoEmptyLevels(WithCount(r, key, v))
  {
    var r' := WithCount(r, key, v);
    forall c | c in r' ensures exists p, s :: p in r'[c] && s in r'[c][p] {
      if c == key.region {
        assert key.period in r'[c] && key.style in r'[c][key.period];
      } else {
        var p, s :| p in r[c] && s in r[c][p];
        assert p in r'[c] && s in r'[c][p];
      }
    }
    forall c, p | c in r' && p in r'[c] ensures exists s :: s in r'[c][p] {
      if c == key.region && p == key.period {
        assert key.style in r'[c][p];
      } else {
        var s :| s in r[c][p];
        assert s in r'[c][p];
      }
    }
  }

  /** Setting one count leaves every other recorded count in place. */
  lemma HoldsOther(r: Rankings, key: CounterKey, v: int, other: CounterKey, w: int)
    requires other != key && Holds(r, other, w)
    ensures Holds(WithCount(r, key, v), other, w)
  {
  }

  /** Every entry after setting one count other than that one was there before. */
  lemma EntryOfWithCount(r: Rankings, key: CounterKey, v: int, other: CounterKey)
    requires other != key
    requires var r' := WithCount(r, key, v);
             other.region in r' && other.period in r'[other.region] && other.style in r'[other.region][other.period]
    ensures Holds(r, other, WithCount(r, key, v)[other.region][other.period][other.style])
  {
  }

  /** Rebuilt rankings record each counter whose name is a key. */
  lemma RebuiltHolds(counters: map<string, int>, r: Rankings, k: string)
    requires Rebuilt(counters, r) && k in counters && Parse(k).Some?
    ensures Holds(r, Parse(k).value, counters[k])
  {
  }

  /** Every entry of rebuilt rankings comes from the counter of that key. */
  lemma RebuiltEntry(counters: map<string, int>, r: Rankings, c: string, p: string, s: string)
    requires Rebuilt(counters, r) && c in r && p in r[c] && s in r[c][p]
    ensures var name := CounterKey(c, p, s).Serialize();
            name in counters && Parse(name) == Some(CounterKey(c, p, s)) && counters[name] == r[c][p][s]
  {
  }

  /** The rebuilt rankings do not depend on the order the counters are visited in. */
  lemma RebuiltUnique(counters: map<string, int>, r1: Rankings, r2: Rankings)
    requires Rebuilt(counters, r1) && Rebuilt(counters, r2)
    ensures r1 == r2
  {
    forall c | c in r1 ensures c in r2 && r1[c] == r2[c] {
      SameCity(counters, r1, r2, c);
    }
    forall c | c in r2 ensures c in r1 {
      SameCity(counters, r2, r1, c);
    }
    MapExtensionality(r1, r2);
  }

  lemma MapExtensionality<K, V>(m1: map<K, V>, m2: map<K, V>)
    requires forall k :: k in m1 ==> k in m2 && m1[k] == m2[k]
    requires forall k :: k in m2 ==> k in m1
    ensures m1 == m2
  {
  }

  lemma SameCity(counters: map<string, int>, r1: Rankings, r2: Rankings, c: string)
    requires Rebuilt(counters, r1) && Rebuilt(counters, r2)
    requires c in r1
    ensures c in r2 && r1[c] == r2[c]
  {
    var p, s :| p in r1[c] && s in r1[c][p];
    SamePeriod(counters, r1, r2, c, p);
    forall p | p in r1[c] ensures p in r2[c] && r1[c][p] == r2[c][p] {
      SamePeriod(counters, r1, r2, c, p);
    }
    forall p | p in r2[c] ensures p in r1[c] {
      SamePeriod(counters, r2, r1, c, p);
    }
    MapExtensionality(r1[c], r2[c]);
  }

  lemma SamePeriod(counters: map<string, int>, r1: Rankings, r2: Rankings, c: string, p: string)
    requires Rebuilt(counters, r1) && Rebuilt(counters, r2)
    requires c in r1 && p in r1[c]
    ensures c in r2 && p in r2[c] && r1[c][p] == r2[c][p]
  {
    var s :| s in r1[c][p];
    SameStyle(counters, r1, r2, c, p, s);
    forall s | s in r1[c][p] ensures s in r2[c][p] && r1[c][p][s] == r2[c][p][s] {
      SameStyle(counters, r1, r2, c, p, s);
    }
    forall s | s in r2[c][p] ensures s in r1[c][p] {
      SameStyle(counters, r2, r1, c, p, s);
    }
    MapExtensionality(r1[c][p], r2[c][p]);
  }

  lemma SameStyle(counters: map<string, int>, r1: Rankings, r2: Rankings, c: string, p: string, s: string)
    requires Rebuilt(counters, r1) && Rebuilt(counters, r2)
    requires c in r1 && p in r1[c] && s in r1[c][p]
    ensures Holds(r2, CounterKey(c, p, s), r1[c][p][s])
  {
    RebuiltEntry(counters, r1, c, p, s);
    RebuiltHolds(counters, r2, CounterKey(c, p, s).Serialize());
  }

  /** The count of every unambiguous key reads back from the rebuilt rankings. */
  lemma RebuiltReadBack(counters: map<string, int>, r: Rankings, key: CounterKey)
    requires Rebuilt(counters, r)
    requires key.Unambiguous() && key.Serialize() in counters
    ensures Holds(r, key, counters[key.Serialize()])
  {
    ParseSerialize(key);
  }

  /** Counters whose names are not keys (not exactly two '/') leave no trace. */
  lemma RebuiltIgnoresOtherCounters(counters: map<string, int>, r: Rankings, name: string, v: int)
    requires Rebuilt(counters, r)
    requires Count(name, '/') != 2
    ensures Rebuilt(counters[name := v], r)
  {
    var counters' := counters[name := v];
    forall k | k in counters'.Keys && Parse(k).Some? ensures Holds(r, Parse(k).value, counters'[k]) {
      assert k != name;
    }
    forall c, p, s | c in r && p in r[c] && s in r[c][p]
      ensures var n := CounterKey(c, p, s).Serialize();
              n in counters'.Keys && Parse(n) == Some(CounterKey(c, p, s)) && counters'[n] == r[c][p][s]
    {
      var n := CounterKey(c, p, s).Serialize();
      assert Parse(n).Some?;
      assert n != name;
    }
  }

  // Runs of the counting jobs, as the job framework records them.

  const SUCCESS: string := "success"

  datatype JobRun = JobRun(appId: string, resultStatus: string, startTime: int, counters: map<string, int>)

  predicate Succeeded(run: JobRun, appId: string)
  {
    run.resultStatus == SUCCESS && run.appId == appId
  }

  /** The successful run of job `appId` that started last (`ORDER BY start_time DESC`, first row). */
  function LatestSuccessful(runs: seq<JobRun>, appId: string): (r: Option<JobRun>)
    ensures r.None? <==> forall i :: 0 <= i < |runs| ==> !Succeeded(runs[i], appId)
    ensures r.Some? ==> r.value in runs && Succeeded(r.value, appId)
    ensures r.Some? ==> forall i :: 0 <= i < |runs| && Succeeded(runs[i], appId) ==> runs[i].startTime <= r.value.startTime
  {
    if runs == [] then None
    else
      var rest := LatestSuccessful(runs[1..], appId);
      assert forall i :: 1 <= i < |runs| ==> runs[i] == runs[1..][i - 1];
      if !Succeeded(runs[0], appId) then rest
      else if rest.None? || rest.value.startTime < runs[0].startTime then Some(runs[0])
      else rest
  }

  /**
   * What reading job `appId` back yields: no data when the job never succeeded,
   * otherwise the counters of its latest successful run, rebuilt.
   */
  ghost predicate ReadBack(runs: seq<JobRun>, appId: string, r: Option<Rankings>)
  {
    (r.None? <==> forall i :: 0 <= i < |runs| ==> !Succeeded(runs[i], appId)) &&
    (r.Some? ==> exists run :: run in runs && Succeeded(run, appId) &&
                   (forall i :: 0 <= i < |runs| && Succeeded(runs[i], appId) ==> runs[i].startTime <= run.startTime) &&
                   Rebuilt(run.counters, r.value))
  }

  /** The body `get_event_rankings` and `get_user_rankings` share, for job `appId`. */
  method GetRankings(runs: seq<JobRun>, appId: string) returns (r: Option<Rankings>)
    ensures ReadBack(runs, appId, r)
  {
    var latest := LatestSuccessful(runs, appId);
    if latest.None? {
      return None;
    }
    var cities := BuildRankings(latest.value.counters);
    r := Some(cities);
  }

  /** `get_event_rankings`: the rankings of the event counting job. */
  method GetEventRankings(runs: seq<JobRun>) returns (r: Option<Rankings>)
    ensures ReadBack(runs, EVENT_RANKING, r)
  {
    r := GetRankings(runs, EVENT_RANKING);
  }

  /** `get_user_rankings`: the rankings of the user counting job. */
  method GetUserRankings(runs: seq<JobRun>) returns (r: Option<Rankings>)
    ensures ReadBack(runs, USER_RANKING, r)
  {
    r := GetRankings(runs, USER_RANKING);
  }
}
