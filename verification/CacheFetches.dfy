/**
 The fetches behind the cache: every read that finds nothing makes its caller fetch, so over any log of calls
 the reads that find nothing are accounted for by the statistics, null payloads and kinds never cached.
 */
module CacheFetches {
  import opened Cache

  predicate FindsNothing<V>(c: State<V>, e: Event<V>) {
    e.GetEv? && Found(c, e.key, e.now).None?
  }

  /** A read that meets an entry within its time to live whose payload is null. */
  predicate MeetsNull<V>(c: State<V>, e: Event<V>) {
    e.GetEv? && e.key in c.data && Fresh(c.data[e.key], e.key.kind, e.now) && c.data[e.key].payload.None?
  }

  /** Reads that find nothing. */
  function EmptyReads<V>(max: nat, log: seq<Event<V>>): nat {
    if log == [] then 0 else
      var before, e := log[..|log| - 1], log[|log| - 1];
      EmptyReads(max, before) + (if FindsNothing(Run(max, before), e) then 1 else 0)
  }

  function NullReads<V>(max: nat, log: seq<Event<V>>): nat {
    if log == [] then 0 else
      var before, e := log[..|log| - 1], log[|log| - 1];
      NullReads(max, before) + (if MeetsNull(Run(max, before), e) then 1 else 0)
  }

  /** Reads of kinds that are never cached. */
  function Bypasses<V>(log: seq<Event<V>>): nat {
    if log == [] then 0 else
      var e := log[|log| - 1];
      Bypasses(log[..|log| - 1]) + (if e.GetEv? && !Cacheable(e.key) then 1 else 0)
  }

  lemma StepMisses<V>(c: State<V>, max: nat, e: Event<V>)
    requires WellFormed(c, max)
    ensures Step(c, max, e).stats.misses + (if MeetsNull(c, e) then 1 else 0) + (if e.GetEv? && !Cacheable(e.key) then 1 else 0)
         == c.stats.misses + (if FindsNothing(c, e) then 1 else 0)
  {
    hide Evict;
    if e.SetEv? && Cacheable(e.key) {
      PlacedWellFormed(c, max, e.key, e.payload, e.now);
      EvictKeepsLast(Place(c, e.key, e.payload, e.now), max);
    }
  }

  /** Each one is a counted miss, a null met again although it counts as a hit, or a read that bypasses the cache. */
  lemma {:induction false} FetchesAccounted<V>(max: nat, log: seq<Event<V>>)
    ensures EmptyReads(max, log) == Run(max, log).stats.misses + NullReads(max, log) + Bypasses(log)
  {
    if log != [] {
      hide MeetsNull, FindsNothing, Step, Cacheable;
      var before, e := log[..|log| - 1], log[|log| - 1];
      FetchesAccounted(max, before);
      RunWellFormed(max, before);
      StepMisses(Run(max, before), max, e);
    }
  }

  /** Call j of the log meets a null. */
  ghost predicate NullAt<V>(max: nat, log: seq<Event<V>>, j: nat) {
    j < |log| && MeetsNull(Run(max, log[..j]), log[j])
  }

  lemma NullAtSnoc<V>(max: nat, log: seq<Event<V>>, j: nat)
    requires log != []
    ensures var n := |log| - 1; NullAt(max, log, j) <==> NullAt(max, log[..n], j) || (j == n && NullAt(max, log, n))
  {
    if j < |log| - 1 {
      assert log[..|log| - 1][..j] == log[..j];
    }
  }

  lemma {:induction false} NullReadsIff<V>(max: nat, log: seq<Event<V>>)
    ensures NullReads(max, log) == 0 <==> forall j: nat :: !NullAt(max, log, j)
  {
    if log != [] {
      var n := |log| - 1;
      NullReadsIff(max, log[..n]);
      assert MeetsNull(Run(max, log[..n]), log[n]) == NullAt(max, log, n);
      hide NullAt, MeetsNull, Run;
      forall j: nat ensures NullAt(max, log, j) <==> NullAt(max, log[..n], j) || (j == n && NullAt(max, log, n)) {
        NullAtSnoc(max, log, j);
      }
    }
  }

  /** Cacheable kinds are fetched exactly as often as a miss is counted if and only if no read meets a null in time. */
  lemma FetchesAreMissesIff<V>(max: nat, log: seq<Event<V>>)
    ensures EmptyReads(max, log) == Run(max, log).stats.misses + Bypasses(log) <==> forall j: nat :: !NullAt(max, log, j)
  {
    FetchesAccounted(max, log);
    NullReadsIff(max, log);
  }

  lemma {:induction false} LastSetIsLogged<V>(log: seq<Event<V>>, k: Key)
    requires LastSet(log, k).Some?
    ensures SetEv(k, LastSet(log, k).value.payload, LastSet(log, k).value.at) in log
  {
    var e := log[|log| - 1];
    if !(e.SetEv? && e.key == k) {
      LastSetIsLogged(log[..|log| - 1], k);
    }
  }

  /** In particular when no null is ever stored. */
  lemma FetchesAreMisses<V>(max: nat, log: seq<Event<V>>)
    requires forall e :: e in log && e.SetEv? ==> e.payload.Some?
    ensures EmptyReads(max, log) == Run(max, log).stats.misses + Bypasses(log)
  {
    forall j: nat ensures !NullAt(max, log, j) {
      if NullAt(max, log, j) {
        DataIsLastSet(max, log[..j], log[j].key);
        LastSetIsLogged(log[..j], log[j].key);
      }
    }
    FetchesAreMissesIff(max, log);
  }

  /** A stored null counts as a hit and is fetched again all the same. */
  lemma NullIsRefetched<V>(c: State<V>, k: Key, now: real)
    requires Cacheable(k) && k in c.data && Fresh(c.data[k], k.kind, now)
    ensures Get(c, k, now).stats == c.stats.(hits := c.stats.hits + 1)
    ensures Found(c, k, now).None? <==> c.data[k].payload.None?
  {}
}
