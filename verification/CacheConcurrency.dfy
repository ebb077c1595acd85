/**
 Any number of coroutines calling `get_or_fetch` on one cache, without a single-flight lock. A coroutine
 reads the cache in one step; if it finds nothing it awaits its fetch, while every other coroutine may take
 any number of steps and the clock may advance; when the fetch returns, its payload is stored in the same
 step, as there is no suspension point between the two.
 */
module CacheConcurrency {
  import opened Wrappers
  import opened Cache
  import opened Transactions
  import CacheFetches
  import CacheRecency

  /** Where a coroutine is, and what it returned, if it did: from the cache, or by its own fetch. */
  datatype Phase<V> =
    | Called
    | Awaiting
    | Returned(payload: Option<V>, fromCache: bool)
    | Raised

  datatype Task<V> = Task(key: Key, phase: Phase<V>)

  datatype System<V> = System(cache: Cache.State<V>, now: real, tasks: seq<Task<V>>)

  datatype Action<V> =
    | Tick(elapsed: real)
    | Spawn(key: Key)
    | Read(i: nat)
    | Arrive(i: nat, payload: Option<V>)
    | Fail(i: nat)
    | Clear

  function Init<V>(): System<V> {
    System(Empty(), 0.0, [])
  }

  predicate Enabled<V>(s: System<V>, a: Action<V>) {
    match a
    case Tick(elapsed) => elapsed >= 0.0
    case Spawn(_) => true
    case Read(i) => i < |s.tasks| && s.tasks[i].phase.Called?
    case Arrive(i, _) => i < |s.tasks| && s.tasks[i].phase.Awaiting?
    case Fail(i) => i < |s.tasks| && s.tasks[i].phase.Awaiting?
    case Clear => true
  }

  function SetPhase<V>(tasks: seq<Task<V>>, i: nat, phase: Phase<V>): seq<Task<V>>
    requires i < |tasks|
  {
    tasks[i := tasks[i].(phase := phase)]
  }

  function Next<V>(max: nat, s: System<V>, a: Action<V>): System<V>
    requires Enabled(s, a)
  {
    match a
    case Tick(elapsed) => s.(now := s.now + elapsed)
    case Spawn(k) => s.(tasks := s.tasks + [Task(k, Called)])
    case Read(i) =>
      var k := s.tasks[i].key;
      var hit := Found(s.cache, k, s.now);
      s.(cache := Get(s.cache, k, s.now),
         tasks := SetPhase(s.tasks, i, if hit.Some? then Returned(hit, true) else Awaiting))
    case Arrive(i, payload) =>
      s.(cache := Set(s.cache, max, s.tasks[i].key, payload, s.now),
         tasks := SetPhase(s.tasks, i, Returned(payload, false)))
    case Fail(i) => s.(tasks := SetPhase(s.tasks, i, Raised))
    case Clear => s.(cache := Step(s.cache, max, ClearEv))
  }

  /**
   One step of a caller on the cache. A read returns the payload it finds or awaits the fetch; an arrival
   returns its payload and leaves it stored for the others, with its time; a clear leaves nothing.
   */
  lemma StepsOnTheCache<V>(max: nat, s: System<V>, a: Action<V>)
    requires Enabled(s, a) && WellFormed(s.cache, max) && max > 0
    ensures var t := Next(max, s, a);
      && (a.Read? ==>
          var found := Found(s.cache, s.tasks[a.i].key, s.now);
          && t.cache == Get(s.cache, s.tasks[a.i].key, s.now)
          && t.tasks[a.i].phase == (if found.Some? then Returned(found, true) else Awaiting))
      && (a.Arrive? ==>
          && t.tasks[a.i].phase == Returned(a.payload, false)
          && (Cacheable(s.tasks[a.i].key) ==>
              s.tasks[a.i].key in t.cache.data && t.cache.data[s.tasks[a.i].key] == Stored(s.now, a.payload)))
      && (a.Clear? ==> t.cache.data == map[] && t.cache.order == [] && t.tasks == s.tasks)
      && (a.Fail? ==> t.cache == s.cache && t.tasks[a.i].phase == Raised)
  {
    hide Get, Found, Evict;
    if a.Arrive? && Cacheable(s.tasks[a.i].key) {
      CacheRecency.StoreIsSafe(s.cache, max, s.tasks[a.i].key, a.payload, s.now);
    }
  }

  ghost predicate Legal<V>(max: nat, run: seq<Action<V>>)
    decreases |run|, 0
  {
    run == [] || (Legal(max, run[..|run| - 1]) && Enabled(After(max, run[..|run| - 1]), run[|run| - 1]))
  }

  ghost function After<V>(max: nat, run: seq<Action<V>>): System<V>
    requires Legal(max, run)
    decreases |run|, 1
  {
    if run == [] then Init() else Next(max, After(max, run[..|run| - 1]), run[|run| - 1])
  }

  lemma {:induction false} LegalPrefix<V>(max: nat, run: seq<Action<V>>, n: nat)
    requires Legal(max, run) && n <= |run|
    ensures Legal(max, run[..n])
  {
    if n < |run| {
      hide Enabled;
      assert run[..|run| - 1][..n] == run[..n];
      LegalPrefix(max, run[..|run| - 1], n);
    } else {
      assert run[..n] == run;
    }
  }

  /** The system after the first n steps. */
  ghost function At<V>(max: nat, run: seq<Action<V>>, n: nat): System<V>
    requires Legal(max, run) && n <= |run|
  {
    LegalPrefix(max, run, n);
    After(max, run[..n])
  }

  /** Step n takes the system from `At(n)` to `At(n + 1)`. */
  lemma StepAt<V>(max: nat, run: seq<Action<V>>, n: nat)
    requires Legal(max, run) && n < |run|
    ensures Enabled(At(max, run, n), run[n]) && At(max, run, n + 1) == Next(max, At(max, run, n), run[n])
    ensures run[n].Arrive? ==> run[n].i < |At(max, run, n).tasks|
  {
    hide Next;
    LegalPrefix(max, run, n + 1);
    assert run[..n + 1][..n] == run[..n];
  }

  lemma AtEnds<V>(max: nat, run: seq<Action<V>>)
    requires Legal(max, run)
    ensures At(max, run, 0) == Init() && At(max, run, |run|) == After(max, run)
  {
    assert run[..|run|] == run;
  }

  /** The clock never falls, and tasks keep their keys. */
  lemma {:induction false} Later<V>(max: nat, run: seq<Action<V>>, m: nat, n: nat)
    requires Legal(max, run) && m <= n <= |run|
    ensures At(max, run, m).now <= At(max, run, n).now
    ensures |At(max, run, m).tasks| <= |At(max, run, n).tasks|
    ensures forall i :: 0 <= i < |At(max, run, m).tasks| ==> At(max, run, n).tasks[i].key == At(max, run, m).tasks[i].key
    decreases n
  {
    if m < n {
      hide At, Legal, Get, Set;
      Later(max, run, m, n - 1);
      StepAt(max, run, n - 1);
    }
  }

  /******* The cache's own log *******/

  /** What a step calls on the cache. */
  function EventsOf<V>(s: System<V>, a: Action<V>): seq<Event<V>>
    requires Enabled(s, a)
  {
    match a
    case Read(i) => [GetEv(s.tasks[i].key, s.now)]
    case Arrive(i, payload) => [SetEv(s.tasks[i].key, payload, s.now)]
    case Clear => [ClearEv]
    case _ => []
  }

  ghost function LogOf<V>(max: nat, run: seq<Action<V>>): seq<Event<V>>
    requires Legal(max, run)
    decreases |run|
  {
    if run == [] then [] else
      var before, a := run[..|run| - 1], run[|run| - 1];
      LogOf(max, before) + EventsOf(After(max, before), a)
  }

  lemma NextLogged<V>(max: nat, s: System<V>, a: Action<V>, log: seq<Event<V>>)
    requires Enabled(s, a) && s.cache == Run(max, log)
    ensures Next(max, s, a).cache == Run(max, log + EventsOf(s, a))
  {
    hide Get, Set, Run;
    if EventsOf(s, a) == [] {
      assert log + EventsOf(s, a) == log;
    } else {
      RunSnoc(max, log, EventsOf(s, a)[0]);
    }
  }

  /** However callers interleave, the cache is in the state that its log of reads, stores and clears leaves. */
  lemma {:induction false} CacheIsLog<V>(max: nat, run: seq<Action<V>>)
    requires Legal(max, run)
    ensures After(max, run).cache == Run(max, LogOf(max, run))
    decreases |run|
  {
    if run != [] {
      hide Next, EventsOf, Enabled, Run;
      var before, a := run[..|run| - 1], run[|run| - 1];
      CacheIsLog(max, before);
      NextLogged(max, After(max, before), a, LogOf(max, before));
    } else {
      assert Run<V>(max, []) == Empty();
    }
  }

  /** So the bound, the statistics and the accounts of the cache hold for interleaved callers. */
  lemma InterleavedAccounting<V>(max: nat, run: seq<Action<V>>)
    requires Legal(max, run)
    ensures var c, log := After(max, run).cache, LogOf(max, run);
      && WellFormed(c, max)
      && c.stats.hits + c.stats.misses == Gets(log)
      && c.stats.expirations <= c.stats.misses
      && Inserts(max, log) == |c.order| + c.stats.evictions + c.stats.expirations + Cleared(max, log)
  {
    hide Run, WellFormed, Legal, After;
    CacheIsLog(max, run);
    RunWellFormed(max, LogOf(max, run));
    Accounting(max, LogOf(max, run));
  }

  /** And so does the working-set guarantee: the next caller to read the key is served what was last stored for it. */
  lemma InterleavedWorkingSet<V>(max: nat, run: seq<Action<V>>, k: Key, log: seq<Event<V>>, payload: Option<V>, at: real,
                                 more: seq<Event<V>>)
    requires Legal(max, run) && LogOf(max, run) == log + [SetEv(k, payload, at)] + more
    requires CacheRecency.Undisturbed(more, k, After(max, run).now)
    requires CacheRecency.SmallGaps(Run(max, log + [SetEv(k, payload, at)]), max, more, k)
    requires ((k.kind == "block" || k.kind == "transaction") && After(max, run).now - at <= 3600.0)
      || ((k.kind == "asset" || k.kind == "application") && After(max, run).now - at <= 300.0)
    ensures Found(After(max, run).cache, k, After(max, run).now) == payload
  {
    hide Run, Legal, After, LogOf, Found;
    CacheIsLog(max, run);
    CacheRecency.WorkingSetIsServed(max, log, k, payload, at, more, After(max, run).now);
  }

  /******* Fetches started *******/

  /** A step that leaves a coroutine awaiting its fetch. */
  predicate StartsFetch<V>(s: System<V>, a: Action<V>) {
    a.Read? && a.i < |s.tasks| && Found(s.cache, s.tasks[a.i].key, s.now).None?
  }

  /** A step that reads an entry within its time to live whose payload is null. */
  predicate ReadsNull<V>(s: System<V>, a: Action<V>) {
    a.Read? && a.i < |s.tasks| && CacheFetches.MeetsNull(s.cache, GetEv(s.tasks[a.i].key, s.now))
  }

  ghost function Started<V>(max: nat, run: seq<Action<V>>): nat
    requires Legal(max, run)
    decreases |run|
  {
    if run == [] then 0 else
      var before, a := run[..|run| - 1], run[|run| - 1];
      Started(max, before) + (if StartsFetch(After(max, before), a) then 1 else 0)
  }

  ghost function NullReads<V>(max: nat, run: seq<Action<V>>): nat
    requires Legal(max, run)
    decreases |run|
  {
    if run == [] then 0 else
      var before, a := run[..|run| - 1], run[|run| - 1];
      NullReads(max, before) + (if ReadsNull(After(max, before), a) then 1 else 0)
  }

  ghost function Bypasses<V>(max: nat, run: seq<Action<V>>): nat
    requires Legal(max, run)
    decreases |run|
  {
    if run == [] then 0 else
      var before, a := run[..|run| - 1], run[|run| - 1];
      Bypasses(max, before) + (if a.Read? && !Cacheable(After(max, before).tasks[a.i].key) then 1 else 0)
  }

  /** A fetch is awaited after exactly the steps that start one. */
  lemma StartsFetchIff<V>(max: nat, s: System<V>, a: Action<V>, i: nat)
    requires Enabled(s, a) && i < |s.tasks|
    ensures StartsFetch(s, a) && a.i == i <==>
      !s.tasks[i].phase.Awaiting? && Next(max, s, a).tasks[i].phase.Awaiting?
  {
    hide Get, Set, Found;
  }

  lemma NextFetches<V>(max: nat, s: System<V>, a: Action<V>, log: seq<Event<V>>)
    requires Enabled(s, a) && s.cache == Run(max, log)
    ensures var more := log + EventsOf(s, a);
      && CacheFetches.EmptyReads(max, more) == CacheFetches.EmptyReads(max, log) + (if StartsFetch(s, a) then 1 else 0)
      && CacheFetches.NullReads(max, more) == CacheFetches.NullReads(max, log) + (if ReadsNull(s, a) then 1 else 0)
      && CacheFetches.Bypasses(more)
         == CacheFetches.Bypasses(log) + (if a.Read? && !Cacheable(s.tasks[a.i].key) then 1 else 0)
  {
    hide Run, Get, Set, Found, Cacheable;
    if EventsOf(s, a) == [] {
      assert log + EventsOf(s, a) == log;
    } else {
      assert (log + EventsOf(s, a))[..|log|] == log;
    }
  }

  lemma {:induction false} CountsAreLogged<V>(max: nat, run: seq<Action<V>>)
    requires Legal(max, run)
    ensures Started(max, run) == CacheFetches.EmptyReads(max, LogOf(max, run))
    ensures NullReads(max, run) == CacheFetches.NullReads(max, LogOf(max, run))
    ensures Bypasses(max, run) == CacheFetches.Bypasses(LogOf(max, run))
    decreases |run|
  {
    if run != [] {
      hide Next, EventsOf, Run, StartsFetch, ReadsNull, Cacheable;
      var before, a := run[..|run| - 1], run[|run| - 1];
      CountsAreLogged(max, before);
      CacheIsLog(max, before);
      NextFetches(max, After(max, before), a, LogOf(max, before));
    }
  }

  /**
   In every interleaving, with fetches that fail and caches cleared at any time, each fetch started is a miss
   counted, a null met again although it counts as a hit, or a read of a kind that is never cached.
   */
  lemma FetchesAccounted<V>(max: nat, run: seq<Action<V>>)
    requires Legal(max, run)
    ensures Started(max, run) == After(max, run).cache.stats.misses + NullReads(max, run) + Bypasses(max, run)
  {
    hide Run, Legal, After, Started, NullReads, Bypasses, LogOf;
    CountsAreLogged(max, run);
    CacheIsLog(max, run);
    CacheFetches.FetchesAccounted(max, LogOf(max, run));
  }

  lemma {:induction false} NullReadsIff<V>(max: nat, run: seq<Action<V>>, n: nat)
    requires Legal(max, run) && n <= |run|
    ensures Legal(max, run[..n])
    ensures NullReads(max, run[..n]) == 0 <==> forall m :: 0 <= m < n ==> !ReadsNull(At(max, run, m), run[m])
  {
    LegalPrefix(max, run, n);
    if n > 0 {
      hide ReadsNull, Legal;
      NullReadsIff(max, run, n - 1);
      assert run[..n][..n - 1] == run[..n - 1];
    }
  }

  /** So fetches are the misses counted, and the reads never cached, exactly if no read meets a null in time. */
  lemma FetchesAreMissesIff<V>(max: nat, run: seq<Action<V>>)
    requires Legal(max, run)
    ensures Started(max, run) == After(max, run).cache.stats.misses + Bypasses(max, run)
      <==> forall m :: 0 <= m < |run| ==> !ReadsNull(At(max, run, m), run[m])
  {
    hide Legal, After, Started, NullReads, Bypasses, ReadsNull, At;
    FetchesAccounted(max, run);
    NullReadsIff(max, run, |run|);
    assert run[..|run|] == run;
  }

  /******* What a return goes back to *******/

  /** Step j is the arrival of a fetch for `k`. */
  ghost predicate Stores<V>(max: nat, run: seq<Action<V>>, j: nat, k: Key)
    requires Legal(max, run)
  {
    && j < |run| && run[j].Arrive?
    && run[j].i < |At(max, run, j).tasks| && At(max, run, j).tasks[run[j].i].key == k
  }

  /** Step j is the last arrival of a fetch for `k` before step n, and the cache was not cleared in between. */
  ghost predicate LastStore<V>(max: nat, run: seq<Action<V>>, j: nat, n: nat, k: Key)
    requires Legal(max, run)
  {
    && j < n <= |run| && Stores(max, run, j, k)
    && forall m :: j < m < n ==> !run[m].Clear? && !Stores(max, run, m, k)
  }

  /** At step n the cache holds for `k` what arrived at step j. */
  ghost predicate HeldSince<V>(max: nat, run: seq<Action<V>>, j: nat, n: nat, k: Key, s: Stored<V>)
    requires Legal(max, run)
  {
    LastStore(max, run, j, n, k) && s == Stored(At(max, run, j).now, run[j].payload)
  }

  ghost predicate CacheExplained<V>(max: nat, run: seq<Action<V>>, n: nat)
    requires Legal(max, run) && n <= |run|
  {
    var c := At(max, run, n).cache;
    WellFormed(c, max) && forall k :: k in c.data ==> exists j :: HeldSince(max, run, j, n, k, c.data[k])
  }

  lemma SetData<V>(c: Cache.State<V>, max: nat, k: Key, payload: Option<V>, now: real)
    requires WellFormed(c, max)
    ensures var d := Set(c, max, k, payload, now);
      && WellFormed(d, max)
      && forall x :: x in d.data ==> if x == k then d.data[x] == Stored(now, payload) else x in c.data && d.data[x] == c.data[x]
  {
    StepWellFormed(c, max, SetEv(k, payload, now));
    if Cacheable(k) {
      PlacedWellFormed(c, max, k, payload, now);
      EvictKeepsLast(Place(c, k, payload, now), max);
    }
  }

  lemma GetData<V>(c: Cache.State<V>, max: nat, k: Key, now: real)
    requires WellFormed(c, max)
    ensures var d := Get(c, k, now);
      && WellFormed(d, max)
      && forall x :: x in d.data ==> x in c.data && d.data[x] == c.data[x]
  {
    StepWellFormed(c, max, GetEv(k, now));
  }

  /** What one step leaves in the cache: old entries of keys it does not store, or what it stores. */
  lemma NextData<V>(max: nat, s: System<V>, a: Action<V>)
    requires WellFormed(s.cache, max) && Enabled(s, a)
    ensures var t := Next(max, s, a);
      && WellFormed(t.cache, max)
      && forall k :: k in t.cache.data ==>
          if a.Arrive? && s.tasks[a.i].key == k then t.cache.data[k] == Stored(s.now, a.payload)
          else !a.Clear? && k in s.cache.data && t.cache.data[k] == s.cache.data[k]
  {
    hide Get, Set, WellFormed;
    match a
    case Read(i) => GetData(s.cache, max, s.tasks[i].key, s.now);
    case Arrive(i, payload) => SetData(s.cache, max, s.tasks[i].key, payload, s.now);
    case Clear => StepWellFormed(s.cache, max, ClearEv);
    case _ =>
  }

  /** In every interleaving, whatever the cache holds is what the last fetch for its key brought. */
  lemma {:induction false} CacheHoldsLastArrival<V>(max: nat, run: seq<Action<V>>, n: nat)
    requires Legal(max, run) && n <= |run|
    ensures CacheExplained(max, run, n)
  {
    if n == 0 {
      AtEnds(max, run);
    } else {
      CacheHoldsLastArrival(max, run, n - 1);
      StepExplains(max, run, n - 1);
    }
  }

  lemma StepExplains<V>(max: nat, run: seq<Action<V>>, n: nat)
    requires Legal(max, run) && n < |run| && CacheExplained(max, run, n)
    ensures CacheExplained(max, run, n + 1)
  {
    hide At, Next, Enabled, HeldSince, WellFormed, Legal;
    StepAt(max, run, n);
    var m := n + 1;
    var s, t, a := At(max, run, n), At(max, run, m), run[n];
    NextData(max, s, a);
    forall k | k in t.cache.data ensures exists j :: HeldSince(max, run, j, m, k, t.cache.data[k]) {
      if a.Arrive? && s.tasks[a.i].key == k {
        HeldFromNow(max, run, n, k);
      } else {
        var j :| HeldSince(max, run, j, n, k, s.cache.data[k]);
        StillHeld(max, run, j, n, k, s.cache.data[k]);
      }
    }
  }

  lemma HeldFromNow<V>(max: nat, run: seq<Action<V>>, n: nat, k: Key)
    requires Legal(max, run) && n < |run| && run[n].Arrive?
    requires run[n].i < |At(max, run, n).tasks| && At(max, run, n).tasks[run[n].i].key == k
    ensures HeldSince(max, run, n, n + 1, k, Stored(At(max, run, n).now, run[n].payload))
  {}

  lemma StillHeld<V>(max: nat, run: seq<Action<V>>, j: nat, n: nat, k: Key, s: Stored<V>)
    requires Legal(max, run) && n < |run| && Enabled(At(max, run, n), run[n])
    requires HeldSince(max, run, j, n, k, s)
    requires !run[n].Clear? && !(run[n].Arrive? && At(max, run, n).tasks[run[n].i].key == k)
    ensures HeldSince(max, run, j, n + 1, k, s)
  {
    hide At, Legal;
    assert !Stores(max, run, n, k);
  }

  /** In particular if no fetch ever brings a null. */
  lemma FetchesAreMisses<V>(max: nat, run: seq<Action<V>>)
    requires Legal(max, run)
    requires forall a :: a in run && a.Arrive? ==> a.payload.Some?
    ensures Started(max, run) == After(max, run).cache.stats.misses + Bypasses(max, run)
  {
    hide Legal, After, Started, Bypasses, At;
    forall m | 0 <= m < |run| ensures !ReadsNull(At(max, run, m), run[m]) {
      CacheHoldsLastArrival(max, run, m);
    }
    FetchesAreMissesIff(max, run);
  }

  /******* Transparency *******/

  /** Step n is where task i returned `payload`. */
  ghost predicate ReturnsAt<V>(max: nat, run: seq<Action<V>>, n: nat, i: nat, payload: Option<V>)
    requires Legal(max, run)
  {
    && n < |run| && i < |At(max, run, n).tasks|
    && (run[n] == Arrive(i, payload) || (run[n] == Read(i) && Found(At(max, run, n).cache, At(max, run, n).tasks[i].key, At(max, run, n).now) == payload))
  }

  /** A task that has returned after a step had done so before it, or does so by that step. */
  lemma NextReturns<V>(max: nat, s: System<V>, a: Action<V>, i: nat)
    requires Enabled(s, a) && i < |Next(max, s, a).tasks| && Next(max, s, a).tasks[i].phase.Returned?
    ensures i < |s.tasks|
    ensures var before, after := s.tasks[i], Next(max, s, a).tasks[i];
      if before.phase.Returned? then after == before
      else
        && after.key == before.key
        && (a == (if after.phase.fromCache then Read(i) else Arrive(i, after.phase.payload)))
        && (after.phase.fromCache ==> after.phase.payload.Some? && after.phase.payload == Found(s.cache, after.key, s.now))
  {
    hide Get, Set, Found;
  }

  /** A task that has returned did so at some step, by its own fetch or from the cache. */
  lemma {:induction false} ReturnStep<V>(max: nat, run: seq<Action<V>>, n: nat, i: nat) returns (m: nat)
    requires Legal(max, run) && n <= |run|
    requires i < |At(max, run, n).tasks| && At(max, run, n).tasks[i].phase.Returned?
    ensures m < n && ReturnsAt(max, run, m, i, At(max, run, n).tasks[i].phase.payload)
    ensures At(max, run, n).tasks[i].phase.fromCache <==> run[m] == Read(i)
    ensures At(max, run, m).tasks[i].key == At(max, run, n).tasks[i].key
    ensures At(max, run, n).tasks[i].phase.fromCache ==> At(max, run, n).tasks[i].phase.payload.Some?
  {
    if n == 0 {
      AtEnds(max, run);
      assert false;
    } else {
      hide At, Legal, Next, Enabled, Found;
      StepAt(max, run, n - 1);
      var s, a := At(max, run, n - 1), run[n - 1];
      NextReturns(max, s, a, i);
      if i < |s.tasks| && s.tasks[i].phase.Returned? {
        m := ReturnStep(max, run, n - 1, i);
      } else {
        m := n - 1;
      }
    }
  }

  /** What step n reads from the cache is what arrived at step j, at most one time to live before. */
  ghost predicate ServesArrival<V>(max: nat, run: seq<Action<V>>, j: nat, n: nat, k: Key, payload: Option<V>)
    requires Legal(max, run)
  {
    && LastStore(max, run, j, n, k) && run[j].payload == payload
    && At(max, run, j).now <= At(max, run, n).now
    && Fresh(Stored(At(max, run, j).now, payload), k.kind, At(max, run, n).now)
  }

  /** Every payload read from the cache was the last to arrive for its key, at most a time to live before. */
  lemma ReadsServeArrivals<V>(max: nat, run: seq<Action<V>>, n: nat, k: Key) returns (j: nat)
    requires Legal(max, run) && n <= |run|
    requires Found(At(max, run, n).cache, k, At(max, run, n).now).Some?
    ensures ServesArrival(max, run, j, n, k, Found(At(max, run, n).cache, k, At(max, run, n).now))
  {
    hide At, Legal, Stores, WellFormed;
    CacheHoldsLastArrival(max, run, n);
    var c := At(max, run, n).cache;
    j :| HeldSince(max, run, j, n, k, c.data[k]);
    Later(max, run, j, n);
  }

  /** A return is the task's own fetch, or a read that serves the last arrival of a fetch for its key. */
  ghost predicate Explained<V>(max: nat, run: seq<Action<V>>, i: nat, task: Task<V>)
    requires Legal(max, run) && task.phase.Returned?
  {
    if !task.phase.fromCache then
      exists n :: 0 <= n < |run| && run[n] == Arrive(i, task.phase.payload)
    else
      exists j, n :: 0 <= j < n < |run| && run[n] == Read(i) && ServesArrival(max, run, j, n, task.key, task.phase.payload)
  }

  /**
   Transparency: in every interleaving, a call returns what its own fetch brought, or what the last fetch
   for the same key to arrive before it read the cache brought, at most one time to live earlier.
   */
  lemma ReturnsAreOwnOrFresh<V>(max: nat, run: seq<Action<V>>, i: nat)
    requires Legal(max, run)
    requires i < |After(max, run).tasks| && After(max, run).tasks[i].phase.Returned?
    ensures Explained(max, run, i, After(max, run).tasks[i])
  {
    hide At, Legal, After, Found, LastStore;
    AtEnds(max, run);
    var n := ReturnStep(max, run, |run|, i);
    var task := After(max, run).tasks[i];
    if task.phase.fromCache {
      var j := ReadsServeArrivals(max, run, n, task.key);
      ServedEarlier(max, run, j, n, task.key);
      assert ServesArrival(max, run, j, n, task.key, task.phase.payload);
    }
  }

  lemma ServedEarlier<V>(max: nat, run: seq<Action<V>>, j: nat, n: nat, k: Key)
    requires Legal(max, run) && LastStore(max, run, j, n, k)
    ensures j < n
  {}

  /******* Staleness *******/

  /** `genuine(k, p, t)`: at time t, payload p is a genuine answer for key k. */
  type Genuine<!V> = (Key, Option<V>, real) -> bool

  /** Every fetch of the run arrives with a payload that is genuine at that moment. */
  ghost predicate Vouched<V(!new)>(max: nat, run: seq<Action<V>>, genuine: Genuine<V>)
    requires Legal(max, run)
  {
    forall j: nat, k: Key :: Stores(max, run, j, k) ==> genuine(k, run[j].payload, At(max, run, j).now)
  }

  /** How long a payload of a kind may be served: not at all if the kind is never cached. */
  function TimeToLive(kind: string): (ttl: real)
    ensures kind == "block" || kind == "transaction" ==> ttl == 3600.0
    ensures kind == "asset" || kind == "application" ==> ttl == 300.0
    ensures kind != "block" && kind != "transaction" && kind != "asset" && kind != "application" ==> ttl == 0.0
  {
    assert "block"[0] == 'b' && "transaction"[0] == 't' && "asset"[1] == 's' && "application"[1] == 'p';
    if Ttl(kind).Some? then Ttl(kind).value else 0.0
  }

  /** The payload was genuine at a moment at most a time to live before `now`. */
  ghost predicate WasGenuine<V(!new)>(genuine: Genuine<V>, k: Key, payload: Option<V>, now: real) {
    exists t :: now - TimeToLive(k.kind) <= t <= now && genuine(k, payload, t)
  }

  /**
   Bounded staleness against an upstream that changes: what a call returns was genuine at most one time to
   live before the moment it returned; for a kind that is never cached, at that very moment.
   */
  lemma ReturnsWereGenuine<V(!new)>(max: nat, run: seq<Action<V>>, genuine: Genuine<V>, i: nat) returns (n: nat)
    requires Legal(max, run) && Vouched(max, run, genuine)
    requires i < |After(max, run).tasks| && After(max, run).tasks[i].phase.Returned?
    ensures var task := After(max, run).tasks[i];
      && ReturnsAt(max, run, n, i, task.phase.payload)
      && WasGenuine(genuine, task.key, task.phase.payload, At(max, run, n).now)
  {
    hide At, Legal, After, Found;
    AtEnds(max, run);
    n := ReturnStep(max, run, |run|, i);
    var task := After(max, run).tasks[i];
    if task.phase.fromCache {
      var j := ReadsServeArrivals(max, run, n, task.key);
      assert genuine(task.key, task.phase.payload, At(max, run, j).now);
    } else {
      assert Stores(max, run, n, task.key);
    }
  }

  /** Once genuine, always. */
  ghost predicate Lasting<V(!new)>(genuine: Genuine<V>) {
    forall k: Key, p: Option<V>, t: real, u: real :: t <= u && genuine(k, p, t) ==> genuine(k, p, u)
  }

  /** If every fetch brings an answer that stays genuine, everything any call returns is genuine to the end. */
  lemma ReturnsAreGenuine<V(!new)>(max: nat, run: seq<Action<V>>, genuine: Genuine<V>, i: nat)
    requires Legal(max, run) && Lasting(genuine) && Vouched(max, run, genuine)
    requires i < |After(max, run).tasks| && After(max, run).tasks[i].phase.Returned?
    ensures genuine(After(max, run).tasks[i].key, After(max, run).tasks[i].phase.payload, After(max, run).now)
  {
    hide At, Legal, After, Vouched;
    AtEnds(max, run);
    var n := ReturnsWereGenuine(max, run, genuine, i);
    Later(max, run, n, |run|);
  }

  /** `answer(k, t)` is what the upstream answers at time t; it has not changed for a time to live before `now`. */
  ghost predicate SettledBy<V>(answer: (Key, real) -> Option<V>, k: Key, now: real) {
    forall t :: now - TimeToLive(k.kind) <= t <= now ==> answer(k, t) == answer(k, now)
  }

  /**
   The cache is invisible to a call whose key's answer did not change during the last time to live: it
   returns what the upstream answers at that moment, cached or not. A kind that is never cached needs no such
   condition.
   */
  lemma SettledUpstreamIsTransparent<V(!new)>(max: nat, run: seq<Action<V>>, answer: (Key, real) -> Option<V>, i: nat)
    returns (n: nat)
    requires Legal(max, run)
    requires Vouched(max, run, (k: Key, p: Option<V>, t: real) => p == answer(k, t))
    requires i < |After(max, run).tasks| && After(max, run).tasks[i].phase.Returned?
    ensures var task := After(max, run).tasks[i];
      && ReturnsAt(max, run, n, i, task.phase.payload)
      && (SettledBy(answer, task.key, At(max, run, n).now) ==> task.phase.payload == answer(task.key, At(max, run, n).now))
  {
    hide At, Legal, After, Vouched, ReturnsAt;
    n := ReturnsWereGenuine(max, run, (k: Key, p: Option<V>, t: real) => p == answer(k, t), i);
  }

  /** Where the upstream's answer never changes, every call returns exactly that answer, cached or not. */
  lemma ConstantUpstreamIsTransparent<V(!new)>(max: nat, run: seq<Action<V>>, answer: Key -> Option<V>, i: nat)
    requires Legal(max, run)
    requires Vouched(max, run, (k: Key, p: Option<V>, t: real) => p == answer(k))
    requires i < |After(max, run).tasks| && After(max, run).tasks[i].phase.Returned?
    ensures After(max, run).tasks[i].phase.payload == answer(After(max, run).tasks[i].key)
  {
    ReturnsAreGenuine(max, run, (k: Key, p: Option<V>, t: real) => p == answer(k), i);
  }

  /******* Confirmations from a cached payload *******/

  /** A transaction payload as the single-transaction route reads it. */
  datatype TxPayload = TxPayload(tx: Option<RawTx>, currentRound: Option<nat>)

  /** A payload of an indexer that has reached some round at most. */
  predicate ReportedBy(p: Option<TxPayload>, round: nat) {
    p.Some? && p.value.currentRound.Some? ==> p.value.currentRound.value <= round
  }

  /** Every payload of a transaction arrives with that transaction, settled, and the indexer's round at that time. */
  predicate TxGenuine(tx: string -> RawTx, round: real -> nat, k: Key, p: Option<TxPayload>, t: real) {
    k.kind == "transaction" ==> p == Some(TxPayload(Some(tx(k.id)), Some(round(t))))
  }

  function WithoutConfirmations(m: MappedTx): MappedTx {
    m.(confirmations := None)
  }

  /**
   The single-transaction route on a settled transaction: the payload carries the current round, so a cached
   answer is not the uncached one, but it differs in the confirmations only. Those are computed at a round
   that the indexer had reached at most a time to live before, and lie between what they were then and what
   they are now.
   */
  lemma CachedTransactionLags(max: nat, run: seq<Action<TxPayload>>, tx: string -> RawTx, round: real -> nat, i: nat)
    returns (n: nat, seen: nat)
    requires Legal(max, run)
    requires forall t, u :: t <= u ==> round(t) <= round(u)
    requires Vouched(max, run, (k: Key, p: Option<TxPayload>, t: real) => TxGenuine(tx, round, k, p, t))
    requires i < |After(max, run).tasks| && After(max, run).tasks[i].phase.Returned?
    requires After(max, run).tasks[i].key.kind == "transaction"
    ensures var task := After(max, run).tasks[i];
      var raw := tx(task.key.id);
      && ReturnsAt(max, run, n, i, task.phase.payload)
      && task.phase.payload == Some(TxPayload(Some(raw), Some(seen)))
      && var now := At(max, run, n).now;
        && round(now - TimeToLive("transaction")) <= seen <= round(now)
        && WithoutConfirmations(Single(raw, Some(seen))) == WithoutConfirmations(Single(raw, Some(round(now))))
        && (raw.confirmedRound.Some? && raw.confirmedRound.value > 0 && seen > 0 ==>
            && Single(raw, Some(seen)).confirmations.Some?
            && Depth(round(now - TimeToLive("transaction")), raw.confirmedRound.value)
                 <= Single(raw, Some(seen)).confirmations.value
                 <= Depth(round(now), raw.confirmedRound.value))
  {
    hide MapTransaction, Legal, After, At, Vouched, Found;
    var genuine := (k: Key, p: Option<TxPayload>, t: real) => TxGenuine(tx, round, k, p, t);
    n := ReturnsWereGenuine(max, run, genuine, i);
    var task, now := After(max, run).tasks[i], At(max, run, n).now;
    var t :| now - TimeToLive(task.key.kind) <= t <= now && genuine(task.key, task.phase.payload, t);
    seen := round(t);
    MapBlockNumber(tx(task.key.id));
  }

  /**
   If the round the indexer reports never falls, the confirmations that the single-transaction route
   computes from any payload it is given, however long that sat in the cache, never exceed those at the
   indexer's latest round.
   */
  lemma ConfirmationsAreNotOverstated(max: nat, run: seq<Action<TxPayload>>, round: real -> nat, i: nat)
    requires Legal(max, run)
    requires forall t, u :: t <= u ==> round(t) <= round(u)
    requires Vouched(max, run, (k: Key, p: Option<TxPayload>, t: real) => ReportedBy(p, round(t)))
    requires i < |After(max, run).tasks| && After(max, run).tasks[i].phase.Returned?
    ensures var s := After(max, run);
      var p := s.tasks[i].phase.payload;
      p.Some? && p.value.tx.Some? && Single(p.value.tx.value, p.value.currentRound).confirmations.Some? ==>
        && p.value.tx.value.confirmedRound.Some?
        && Single(p.value.tx.value, p.value.currentRound).confirmations.value
             <= Depth(round(s.now), p.value.tx.value.confirmedRound.value)
  {
    hide MapTransaction, Legal, After, Vouched;
    ReturnsAreGenuine(max, run, (k: Key, p: Option<TxPayload>, t: real) => ReportedBy(p, round(t)), i);
    var p := After(max, run).tasks[i].phase.payload;
    if p.Some? && p.value.tx.Some? {
      MapBlockNumber(p.value.tx.value);
    }
  }
}
