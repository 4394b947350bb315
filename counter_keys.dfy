/**
 * The counter key format of the ranking jobs: a (region, time period, segment)
 * triple written as "region/period/segment", and the reading of such a key back.
 */
module CounterKeys {
  import opened Wrappers
  import opened Strings

  datatype CounterKey = CounterKey(region: string, period: string, style: string)
  {
    /** The counter name, as `"%s/%s/%s" % (region, period, style)` writes it. */
    function Serialize(): string
    {
      region + "/" + period + "/" + style
    }

    /** No component contains the delimiter, so the key reads back unambiguously. */
    predicate Unambiguous()
    {
      '/' !in region && '/' !in period && '/' !in style
    }
  }

  /** A counter name read back as a key: only names with exactly two '/' are keys. */
  function Parse(name: string): (r: Option<CounterKey>)
    ensures r.Some? <==> Count(name, '/') == 2
    ensures r.Some? ==> r.value.Unambiguous()
  {
    if Count(name, '/') != 2 then None
    else
      var parts := Split(name, '/');
      Some(CounterKey(parts[0], parts[1], parts[2]))
  }

  lemma SerializeIsJoin(key: CounterKey)
    ensures key.Serialize() == Join([key.region, key.period, key.style], "/")
  {
    var parts := [key.region, key.period, key.style];
    assert parts[1..] == [key.period, key.style];
    assert parts[1..][1..] == [key.style];
    assert Join(parts[1..][1..], "/") == key.style;
    assert Join(parts[1..], "/") == key.period + "/" + key.style;
    assert Join(parts, "/") == key.region + "/" + (key.period + "/" + key.style);
  }

  /** Round trip: a key whose components are free of '/' is read back unchanged. */
  lemma ParseSerialize(key: CounterKey)
    requires key.Unambiguous()
    ensures Parse(key.Serialize()) == Some(key)
  {
    SerializeIsJoin(key);
    SplitJoin([key.region, key.period, key.style], '/');
  }

  /** The other direction: every name that reads as a key is that key's serialization. */
  lemma SerializeParse(name: string)
    requires Parse(name).Some?
    ensures Parse(name).value.Serialize() == name
  {
    var parts := Split(name, '/');
    JoinSplit(name, '/');
    assert parts == [parts[0], parts[1], parts[2]];
    SerializeIsJoin(Parse(name).value);
  }

  /**
   * Within one region, period and style free of '/' are told apart by the name,
   * whatever the region itself contains.
   */
  lemma SameRegionInjective(a: CounterKey, b: CounterKey)
    requires a.region == b.region
    requires '/' !in a.period && '/' !in a.style && '/' !in b.period && '/' !in b.style
    requires a.Serialize() == b.Serialize()
    ensures a == b
  {
    var prefix := a.region + "/";
    var tailA, tailB := a.period + "/" + a.style, b.period + "/" + b.style;
    assert a.Serialize() == prefix + tailA && b.Serialize() == prefix + tailB;
    assert tailA == (prefix + tailA)[|prefix|..];
    assert tailB == (prefix + tailB)[|prefix|..];
    SplitTwo(a.period, a.style, '/');
    SplitTwo(b.period, b.style, '/');
  }

  /** A component containing '/' makes the name unreadable: such a count is dropped. */
  lemma AmbiguousKeyDropped(key: CounterKey)
    requires !key.Unambiguous()
    ensures Parse(key.Serialize()) == None
  {
    CountAppend(key.region + "/" + key.period + "/", key.style, '/');
    CountAppend(key.region + "/" + key.period, "/", '/');
    CountAppend(key.region + "/", key.period, '/');
    CountAppend(key.region, "/", '/');
  }
}
