/**
 What a reader of a scrape finds in its text, series by series under their published names: the histogram of
 a route, the cache statistics, and the gauges.
 */
module Published {
  import opened Wrappers
  import opened Amounts
  import opened Exposition
  import opened Metrics
  import opened Scrape

  /** A sample of one label without newlines is read as it was written. */
  lemma PlainSample(name: string, key: string, text: string, value: string)
    requires '\n' !in text
    ensures Stripped(Sample(name, [(key, text)], value)) == Sample(name, [(key, text)], value)
  {
    hide NoNewlines;
    NoNewlinesShrinks(text);
    assert [(key, text)][1..] == [];
    assert StripLabels([(key, text)]) == [(key, NoNewlines(text))] + StripLabels([(key, text)][1..]);
  }

  lemma PlainPairSample(name: string, a: (string, string), b: (string, string), value: string)
    requires '\n' !in a.1 && '\n' !in b.1
    ensures Stripped(Sample(name, [a, b], value)) == Sample(name, [a, b], value)
  {
    hide NoNewlines;
    NoNewlinesShrinks(a.1);
    NoNewlinesShrinks(b.1);
    StrippedTwo(name, a, b, value);
  }

  /******* The cache *******/

  function CacheTotal(outcome: string, n: nat): Sample {
    Sample("algorandscout_cache_total", [("outcome", outcome)], NatStr(n))
  }

  lemma OutcomeRead(outcome: string, n: nat)
    requires '\n' !in outcome
    ensures Stripped(CacheSample((outcome, n))) == CacheTotal(outcome, n)
  {
    hide NatStr, Stripped;
    FullNames();
    PlainSample(CACHE, "outcome", outcome, NatStr(n));
  }

  lemma CacheSamplesRead(stats: Cache.Stats)
    ensures CacheSamples(Some(stats)) == [CacheTotal("hit", stats.hits), CacheTotal("miss", stats.misses),
                                          CacheTotal("expired", stats.expirations), CacheTotal("evicted", stats.evictions)]
  {
    hide CacheTotal, CacheSample, Stripped;
    OutcomeRead("hit", stats.hits);
    OutcomeRead("miss", stats.misses);
    OutcomeRead("expired", stats.expirations);
    OutcomeRead("evicted", stats.evictions);
    assert |Outcomes(stats)| == 4;
  }

  /** No sample before the cache's belongs to its series. */
  lemma CountersAreNotCache(log: seq<Observation>, requestItems: seq<((string, int), nat)>,
                            upstreamItems: seq<((string, string), nat)>, bucketItems: seq<(string, seq<nat>)>, s: Sample)
    requires s in SamplesOf(requestItems, RequestSample) + SamplesOf(upstreamItems, UpstreamSample) + Histograms(log, bucketItems)
    ensures s.name != CACHE
  {
    hide SamplesOf, Histograms, Histogram, NatStr, IntStr;
    NamesDiffer();
    hide CACHE, REQUESTS, UPSTREAM, BUCKET, SUM, COUNT;
    if s in SamplesOf(requestItems, RequestSample) {
      var item := ItemOf(requestItems, RequestSample, s);
    } else if s in SamplesOf(upstreamItems, UpstreamSample) {
      var item := ItemOf(upstreamItems, UpstreamSample, s);
    } else {
      var route := InHistograms(log, bucketItems, s);
      HistogramNames(log, route);
    }
  }

  /**
   The cache series of a scrape are exactly four samples, in this order, each with the statistic of its
   outcome; a scrape without statistics has none.
   */
  lemma CacheIsRead(text: string, log: seq<Observation>, calls: seq<(string, string)>, stats: Option<Cache.Stats>,
                    gauges: seq<(string, string)>) returns (before: seq<Sample>, after: seq<Sample>)
    requires IsScrape(text, log, calls, stats, gauges)
    ensures ReadLines(Lines(text)) == before
      + (match stats
         case None => []
         case Some(t) =>
           [Sample("algorandscout_cache_total", [("outcome", "hit")], NatStr(t.hits)),
            Sample("algorandscout_cache_total", [("outcome", "miss")], NatStr(t.misses)),
            Sample("algorandscout_cache_total", [("outcome", "expired")], NatStr(t.expirations)),
            Sample("algorandscout_cache_total", [("outcome", "evicted")], NatStr(t.evictions))])
      + after
    ensures forall s :: s in before + after ==> s.name != "algorandscout_cache_total" || s.labels == []
  {
    hide ReadLines, Lines, SamplesOf, Histograms, CacheSamples, ListsRoutes, ListsCounts, NatStr;
    var requestItems, upstreamItems, bucketItems :|
      && Lists(log, calls, requestItems, upstreamItems, bucketItems)
      && ReadLines(Lines(text)) == Samples(log, requestItems, upstreamItems, bucketItems, stats, gauges);
    before := SamplesOf(requestItems, RequestSample) + SamplesOf(upstreamItems, UpstreamSample) + Histograms(log, bucketItems);
    after := SamplesOf(gauges, GaugeSample);
    FullNames();
    hide CACHE;
    forall s | s in before ensures s.name != CACHE {
      CountersAreNotCache(log, requestItems, upstreamItems, bucketItems, s);
    }
    TheRest(stats, gauges);
    if stats.Some? {
      CacheSamplesRead(stats.value);
    } else {
      NoCacheSamples();
    }
  }

  lemma NoCacheSamples()
    ensures CacheSamples(None) == []
  {}

  /******* Gauges *******/

  /** The gauges end a scrape, each under its full name with its value as given. */
  lemma GaugesAreRead(text: string, log: seq<Observation>, calls: seq<(string, string)>, stats: Option<Cache.Stats>,
                      gauges: seq<(string, string)>, i: nat)
    requires IsScrape(text, log, calls, stats, gauges) && i < |gauges|
    ensures var samples := ReadLines(Lines(text));
      |samples| >= |gauges|
      && samples[|samples| - |gauges| + i] == Sample("algorandscout_" + gauges[i].0, [], gauges[i].1)
  {
    hide ReadLines, Lines, Histograms, CacheSamples, ListsRoutes, ListsCounts;
    var requestItems, upstreamItems, bucketItems :|
      && Lists(log, calls, requestItems, upstreamItems, bucketItems)
      && ReadLines(Lines(text)) == Samples(log, requestItems, upstreamItems, bucketItems, stats, gauges);
    assert SamplesOf(gauges, GaugeSample)[i] == Stripped(GaugeSample(gauges[i]));
  }

  /******* Histograms *******/

  function Bucket(route: string, le: string, n: nat): Sample {
    Sample("algorandscout_request_duration_seconds_bucket", [("route", route), ("le", le)], NatStr(n))
  }

  /** The requests of a route that took at most so long. */
  function Within(log: seq<Observation>, route: string, seconds: real): nat {
    Count(log, (o: Observation) => o.route == route && o.duration <= seconds)
  }

  /** A route's histogram in full: each edge with the count up to it, then everything, the sum and the count. */
  lemma HistogramRead(log: seq<Observation>, route: string)
    requires '\n' !in route
    ensures var n := Count(log, (o: Observation) => o.route == route);
      Histogram(log, route) ==
        [Bucket(route, "0.05", Within(log, route, 0.05)), Bucket(route, "0.1", Within(log, route, 0.1)),
         Bucket(route, "0.25", Within(log, route, 0.25)), Bucket(route, "0.5", Within(log, route, 0.5)),
         Bucket(route, "1.0", Within(log, route, 1.0)), Bucket(route, "2.5", Within(log, route, 2.5)),
         Bucket(route, "5.0", Within(log, route, 5.0)), Bucket(route, "10.0", Within(log, route, 10.0)),
         Bucket(route, "+Inf", n),
         Sample("algorandscout_request_duration_seconds_sum", [("route", route)], SixDecimals(SumOf(log, route)).Show()),
         Sample("algorandscout_request_duration_seconds_count", [("route", route)], NatStr(n))]
  {
    hide Stripped, NatStr, SixDecimals, Count, SumOf, BUCKET, SUM, COUNT;
    var n := Count(log, OfRoute(route));
    CountAgree(log, OfRoute(route), (o: Observation) => o.route == route);
    EdgeRead(log, route, 0, "0.05", 0.05);
    EdgeRead(log, route, 1, "0.1", 0.1);
    EdgeRead(log, route, 2, "0.25", 0.25);
    EdgeRead(log, route, 3, "0.5", 0.5);
    EdgeRead(log, route, 4, "1.0", 1.0);
    EdgeRead(log, route, 5, "2.5", 2.5);
    EdgeRead(log, route, 6, "5.0", 5.0);
    EdgeRead(log, route, 7, "10.0", 10.0);
    FullBucketName();
    FullSumName();
    FullCountName();
    PlainPairSample(BUCKET, ("route", route), ("le", "+Inf"), NatStr(n));
    PlainSample(SUM, "route", route, SixDecimals(SumOf(log, route)).Show());
    PlainSample(COUNT, "route", route, NatStr(n));
  }

  lemma EdgeRead(log: seq<Observation>, route: string, i: nat, le: string, edge: real)
    requires '\n' !in route && i < |EDGES| && EDGES[i] == edge && EDGE_LABELS[i] == le
    ensures Buckets(log, route, |EDGES|)[i] == Bucket(route, le, Within(log, route, edge))
  {
    hide Stripped, NatStr, Count, BUCKET;
    CountAgree(log, AtMost(route, edge), (o: Observation) => o.route == route && o.duration <= edge);
    FullBucketName();
    PlainEdges();
    PlainPairSample(BUCKET, ("route", route), ("le", le), NatStr(Within(log, route, edge)));
  }

  lemma {:induction false} HistogramSlice(log: seq<Observation>, items: seq<(string, seq<nat>)>, route: string)
    returns (before: seq<Sample>, after: seq<Sample>)
    requires Listed(items, route)
    ensures Histograms(log, items) == before + Histogram(log, route) + after
  {
    hide Histogram;
    var n := |items| - 1;
    if items[n].0 == route {
      before, after := Histograms(log, items[..n]), [];
    } else {
      var i :| 0 <= i < |items| && items[i].0 == route;
      assert items[..n][i].0 == route;
      before, after := HistogramSlice(log, items[..n], route);
      after := after + Histogram(log, items[n].0);
    }
  }

  /** Every route observed has its histogram in the text, in one piece. */
  lemma HistogramIsRead(text: string, log: seq<Observation>, calls: seq<(string, string)>, stats: Option<Cache.Stats>,
                        gauges: seq<(string, string)>, i: nat) returns (before: seq<Sample>, after: seq<Sample>)
    requires IsScrape(text, log, calls, stats, gauges) && i < |log| && '\n' !in log[i].route
    ensures var route := log[i].route;
      var n := Count(log, (o: Observation) => o.route == route);
      ReadLines(Lines(text)) == before +
        [Bucket(route, "0.05", Within(log, route, 0.05)), Bucket(route, "0.1", Within(log, route, 0.1)),
         Bucket(route, "0.25", Within(log, route, 0.25)), Bucket(route, "0.5", Within(log, route, 0.5)),
         Bucket(route, "1.0", Within(log, route, 1.0)), Bucket(route, "2.5", Within(log, route, 2.5)),
         Bucket(route, "5.0", Within(log, route, 5.0)), Bucket(route, "10.0", Within(log, route, 10.0)),
         Bucket(route, "+Inf", n),
         Sample("algorandscout_request_duration_seconds_sum", [("route", route)], SixDecimals(SumOf(log, route)).Show()),
         Sample("algorandscout_request_duration_seconds_count", [("route", route)], NatStr(n))]
        + after
  {
    hide ReadLines, Lines, SamplesOf, Histograms, Histogram, Bucket, Within, Count, CacheSamples, ListsCounts, NatStr, SixDecimals, SumOf;
    var requestItems, upstreamItems, bucketItems :|
      && Lists(log, calls, requestItems, upstreamItems, bucketItems)
      && ReadLines(Lines(text)) == Samples(log, requestItems, upstreamItems, bucketItems, stats, gauges);
    var route := log[i].route;
    assert log[i] in log;
    CountPositive(log, OfRoute(route), log[i]);
    before, after := HistogramSlice(log, bucketItems, route);
    before := SamplesOf(requestItems, RequestSample) + SamplesOf(upstreamItems, UpstreamSample) + before;
    after := after + CacheSamples(stats) + SamplesOf(gauges, GaugeSample);
    HistogramRead(log, route);
  }
}
