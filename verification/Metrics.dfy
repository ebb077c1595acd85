/**
 Request counters and latency histograms (`Metrics`), kept in dictionaries that are updated in place
 under a lock, against a ghost log of everything observed. Durations are exact seconds.
 */
module Metrics {
  /** `LATENCY_BUCKETS`, and how an f-string prints its entries. */
  const EDGES: seq<real> := [0.05, 0.1, 0.25, 0.5, 1.0, 2.5, 5.0, 10.0]
  const EDGE_LABELS: seq<string> := ["0.05", "0.1", "0.25", "0.5", "1.0", "2.5", "5.0", "10.0"]

  const PREFIX := "algorandscout_"
  const DURATION := PREFIX + "request_duration_seconds"
  const REQUESTS := PREFIX + "requests_total"
  const UPSTREAM := PREFIX + "upstream_total"
  const BUCKET := DURATION + "_bucket"
  const SUM := DURATION + "_sum"
  const COUNT := DURATION + "_count"
  const CACHE := PREFIX + "cache_total"

  /** The names in full. */
  lemma FullNames()
    ensures REQUESTS == "algorandscout_requests_total" && UPSTREAM == "algorandscout_upstream_total"
    ensures DURATION == "algorandscout_request_duration_seconds"
    ensures CACHE == "algorandscout_cache_total"
  {}

  lemma FullBucketName()
    ensures BUCKET == "algorandscout_request_duration_seconds_bucket"
  {}

  lemma FullSumName()
    ensures SUM == "algorandscout_request_duration_seconds_sum"
  {}

  lemma FullCountName()
    ensures COUNT == "algorandscout_request_duration_seconds_count"
  {}

  datatype Observation = Observation(route: string, status: int, duration: real)

  /******* Counting in a log *******/

  function Count<T>(log: seq<T>, p: T -> bool): nat {
    if log == [] then 0 else Count(log[..|log| - 1], p) + (if p(log[|log| - 1]) then 1 else 0)
  }

  lemma CountSnoc<T>(log: seq<T>, x: T, p: T -> bool)
    ensures Count(log + [x], p) == Count(log, p) + (if p(x) then 1 else 0)
  {
    assert (log + [x])[..|log|] == log;
  }

  /** Counting is the size of the set of positions that satisfy the predicate. */
  lemma {:induction false} CountIsCardinality<T>(log: seq<T>, p: T -> bool)
    ensures Count(log, p) == |set i | 0 <= i < |log| && p(log[i])|
  {
    var all := set i | 0 <= i < |log| && p(log[i]);
    if log == [] {
      assert all == {};
    } else {
      var n := |log| - 1;
      var before := log[..n];
      var some := set i | 0 <= i < |before| && p(before[i]);
      CountIsCardinality(before, p);
      assert all == if p(log[n]) then some + {n} else some;
    }
  }

  lemma {:induction false} CountMono<T>(log: seq<T>, p: T -> bool, q: T -> bool)
    requires forall x :: x in log && p(x) ==> q(x)
    ensures Count(log, p) <= Count(log, q)
  {
    if log != [] {
      CountMono(log[..|log| - 1], p, q);
    }
  }

  lemma {:induction false} CountAgree<T>(log: seq<T>, p: T -> bool, q: T -> bool)
    requires forall x :: x in log ==> p(x) == q(x)
    ensures Count(log, p) == Count(log, q)
  {
    if log != [] {
      CountAgree(log[..|log| - 1], p, q);
    }
  }

  lemma {:induction false} CountSplit<T>(log: seq<T>, p: T -> bool, q: T -> bool, r: T -> bool)
    requires forall x :: x in log ==> (r(x) <==> p(x) || q(x)) && !(p(x) && q(x))
    ensures Count(log, r) == Count(log, p) + Count(log, q)
  {
    if log != [] {
      CountSplit(log[..|log| - 1], p, q, r);
    }
  }

  /** Counts never fall as a log grows. */
  lemma {:induction false} CountPrefix<T>(log: seq<T>, longer: seq<T>, p: T -> bool)
    requires log <= longer
    ensures Count(log, p) <= Count(longer, p)
  {
    if |longer| > |log| {
      CountPrefix(log, longer[..|longer| - 1], p);
    } else {
      assert log == longer;
    }
  }

  function OfKey(k: (string, int)): Observation -> bool {
    (o: Observation) => o.route == k.0 && o.status == k.1
  }

  function OfRoute(route: string): Observation -> bool {
    (o: Observation) => o.route == route
  }

  function AtMost(route: string, edge: real): Observation -> bool {
    (o: Observation) => o.route == route && o.duration <= edge
  }

  /** The index of the first edge that bounds a duration, |EDGES| if none does. */
  function Slot(duration: real, from: nat): (i: nat)
    requires from <= |EDGES|
    ensures from <= i <= |EDGES|
    ensures forall j :: from <= j < i ==> duration > EDGES[j]
    ensures i < |EDGES| ==> duration <= EDGES[i]
    decreases |EDGES| - from
  {
    if from == |EDGES| || duration <= EDGES[from] then from else Slot(duration, from + 1)
  }

  function InSlot(route: string, i: nat): Observation -> bool {
    (o: Observation) => o.route == route && Slot(o.duration, 0) == i
  }

  function BelowSlot(route: string, i: nat): Observation -> bool {
    (o: Observation) => o.route == route && Slot(o.duration, 0) < i
  }

  /** The durations of a route's observations, added up. */
  function SumOf(log: seq<Observation>, route: string): real {
    if log == [] then 0.0 else
      var before, o := log[..|log| - 1], log[|log| - 1];
      SumOf(before, route) + (if o.route == route then o.duration else 0.0)
  }

  /** Sums add up over any split of the log, and one observation's is its duration on its own route. */
  lemma {:induction false} SumsAddUp(xs: seq<Observation>, ys: seq<Observation>, o: Observation, route: string)
    ensures SumOf(xs + ys, route) == SumOf(xs, route) + SumOf(ys, route)
    ensures SumOf([o], route) == if o.route == route then o.duration else 0.0
  {
    assert [o][..0] == [];
    if ys == [] {
      assert xs + ys == xs;
    } else {
      assert (xs + ys)[..|xs| + |ys| - 1] == xs + ys[..|ys| - 1];
      SumsAddUp(xs, ys[..|ys| - 1], o, route);
    }
  }

  function Same<T(==)>(k: T): T -> bool {
    (x: T) => x == k
  }

  /******* The counters *******/

  function At<K>(m: map<K, nat>, k: K): nat {
    if k in m then m[k] else 0
  }

  /** The dictionary holds exactly the positive counts of a log's entries, by key. */
  ghost predicate Tallies<K(!new), T>(m: map<K, nat>, log: seq<T>, of: K -> (T -> bool)) {
    forall k :: At(m, k) == Count(log, of(k)) && (k in m ==> m[k] > 0)
  }

  /** Counting one more entry under its only key. */
  lemma TallyOne<K(!new), T>(m: map<K, nat>, log: seq<T>, of: K -> (T -> bool), x: T, key: K)
    requires Tallies(m, log, of)
    requires forall k :: of(k)(x) <==> k == key
    ensures Tallies(m[key := At(m, key) + 1], log + [x], of)
  {
    var n := m[key := At(m, key) + 1];
    forall k ensures At(n, k) == Count(log + [x], of(k)) {
      CountSnoc(log, x, of(k));
    }
  }

  /** The dictionary holds the sums of the routes observed. */
  ghost predicate AreSums(m: map<string, real>, log: seq<Observation>) {
    forall r :: (if r in m then m[r] else 0.0) == SumOf(log, r)
  }

  lemma AddDuration(m: map<string, real>, log: seq<Observation>, o: Observation)
    requires AreSums(m, log)
    ensures AreSums(m[o.route := (if o.route in m then m[o.route] else 0.0) + o.duration], log + [o])
  {
    assert (log + [o])[..|log|] == log;
  }

  ghost predicate AreHistograms(m: map<string, seq<nat>>, log: seq<Observation>) {
    forall r :: r in m ==> IsHistogram(m[r], log, r)
  }

  class Counters {
    var requests: map<(string, int), nat>
    var upstream: map<(string, string), nat>
    var latencyBuckets: map<string, seq<nat>>
    var latencySum: map<string, real>
    var latencyCount: map<string, nat>
    ghost var log: seq<Observation>
    ghost var calls: seq<(string, string)>

    /** The dictionaries hold what was observed, no more and no less. */
    ghost predicate Valid()
      reads this
    {
      && Tallies(requests, log, OfKey)
      && Tallies(upstream, calls, Same<(string, string)>)
      && Tallies(latencyCount, log, OfRoute)
      && latencyCount.Keys == latencyBuckets.Keys
      && AreHistograms(latencyBuckets, log)
      && AreSums(latencySum, log)
    }

    constructor ()
      ensures Valid() && log == [] && calls == []
    {
      requests, upstream := map[], map[];
      latencyBuckets, latencySum, latencyCount := map[], map[], map[];
      log, calls := [], [];
    }

    /** `observe_request` */
    method ObserveRequest(route: string, status: int, duration: real)
      requires Valid()
      modifies this
      ensures Valid() && log == old(log) + [Observation(route, status, duration)] && calls == old(calls)
    {
      hide Tallies, IsHistogram, AreHistograms, AreSums, Slot;
      ghost var o := Observation(route, status, duration);
      requests := requests[(route, status) := At(requests, (route, status)) + 1];
      TallyOne(old(requests), log, OfKey, o, (route, status));
      var buckets := if route in latencyBuckets then latencyBuckets[route] else seq(|EDGES| + 1, _ => 0);
      RouteHistogram(latencyCount, latencyBuckets, log, route, buckets);
      var placed := AddToSlot(buckets, duration);
      latencyBuckets := latencyBuckets[route := placed];
      MoreHistograms(old(latencyBuckets), log, o, buckets, placed);
      latencySum := latencySum[route := (if route in latencySum then latencySum[route] else 0.0) + duration];
      AddDuration(old(latencySum), log, o);
      latencyCount := latencyCount[route := At(latencyCount, route) + 1];
      TallyOne(old(latencyCount), log, OfRoute, o, route);
      log := log + [o];
    }

    /** `observe_upstream` */
    method ObserveUpstream(target: string, outcome: string)
      requires Valid()
      modifies this
      ensures Valid() && calls == old(calls) + [(target, outcome)] && log == old(log)
    {
      hide Tallies, AreHistograms, AreSums;
      var k := (target, outcome);
      upstream := upstream[k := At(upstream, k) + 1];
      TallyOne(old(upstream), calls, Same<(string, string)>, k, k);
      calls := calls + [k];
    }
  }

  /** The search for the bucket of a duration: the first edge that bounds it, else the last bucket. */
  method AddToSlot(buckets: seq<nat>, duration: real) returns (r: seq<nat>)
    requires |buckets| == |EDGES| + 1
    ensures r == buckets[Slot(duration, 0) := buckets[Slot(duration, 0)] + 1]
  {
    r := buckets;
    for index := 0 to |EDGES|
      invariant r == buckets
      invariant forall j :: 0 <= j < index ==> duration > EDGES[j]
    {
      if duration <= EDGES[index] {
        return r[index := r[index] + 1];
      }
    }
    r := r[|EDGES| := r[|EDGES|] + 1];
  }

  lemma RouteHistogram(counts: map<string, nat>, m: map<string, seq<nat>>, log: seq<Observation>, route: string, buckets: seq<nat>)
    requires Tallies(counts, log, OfRoute) && counts.Keys == m.Keys && AreHistograms(m, log)
    requires buckets == if route in m then m[route] else seq(|EDGES| + 1, _ => 0)
    ensures |buckets| == |EDGES| + 1 && IsHistogram(buckets, log, route)
  {
    if route !in m {
      assert At(counts, route) == 0;
      NothingObserved(log, route);
    }
  }

  lemma MoreHistograms(m: map<string, seq<nat>>, log: seq<Observation>, o: Observation, before: seq<nat>, after: seq<nat>)
    requires AreHistograms(m, log) && IsHistogram(before, log, o.route)
    requires |before| == |EDGES| + 1
    requires after == before[Slot(o.duration, 0) := before[Slot(o.duration, 0)] + 1]
    ensures AreHistograms(m[o.route := after], log + [o])
  {
    hide IsHistogram, Slot;
    OneMore(before, after, log, o);
    OtherHistograms(m, log, o);
  }

  /** Per-slot counts of one route. */
  ghost predicate IsHistogram(buckets: seq<nat>, log: seq<Observation>, route: string) {
    && |buckets| == |EDGES| + 1
    && forall i :: 0 <= i < |buckets| ==> buckets[i] == Count(log, InSlot(route, i))
  }

  lemma NothingObserved(log: seq<Observation>, route: string)
    requires Count(log, OfRoute(route)) == 0
    ensures IsHistogram(seq(|EDGES| + 1, _ => 0), log, route)
  {
    forall i: nat ensures Count(log, InSlot(route, i)) == 0 {
      CountMono(log, InSlot(route, i), OfRoute(route));
    }
  }

  /** Adding one to the slot of a new observation keeps the counts of its route. */
  lemma OneMore(before: seq<nat>, after: seq<nat>, log: seq<Observation>, o: Observation)
    requires IsHistogram(before, log, o.route)
    requires after == before[Slot(o.duration, 0) := before[Slot(o.duration, 0)] + 1]
    ensures IsHistogram(after, log + [o], o.route)
  {
    forall i | 0 <= i < |after| ensures after[i] == Count(log + [o], InSlot(o.route, i)) {
      CountSnoc(log, o, InSlot(o.route, i));
    }
  }

  lemma OtherHistograms(m: map<string, seq<nat>>, log: seq<Observation>, o: Observation)
    requires forall r :: r in m ==> IsHistogram(m[r], log, r)
    ensures forall r :: r in m && r != o.route ==> IsHistogram(m[r], log + [o], r)
  {
    forall r | r in m && r != o.route ensures IsHistogram(m[r], log + [o], r) {
      forall i | 0 <= i < |m[r]| ensures m[r][i] == Count(log + [o], InSlot(r, i)) {
        CountSnoc(log, o, InSlot(r, i));
      }
    }
  }
}
