/**
 What the cache keeps: exactly the most recently used keys when every read is followed by a store on a
 miss, and every key whose working set stays below the bound when reads and stores are arbitrary.
 */
module CacheRecency {
  import opened Wrappers
  import opened Cache

  /******* Recency, independent of the cache *******/

  /** The distinct keys of `uses`, by most recent use, latest last. */
  function Recent(uses: seq<Key>): seq<Key> {
    if uses == [] then [] else Touch(Recent(uses[..|uses| - 1]), uses[|uses| - 1])
  }

  /** The position just after the last use of `k`, zero if there is none. */
  function LastUse(uses: seq<Key>, k: Key): nat {
    if uses == [] then 0
    else if uses[|uses| - 1] == k then |uses|
    else LastUse(uses[..|uses| - 1], k)
  }

  lemma {:induction false} RecentDistinct(uses: seq<Key>)
    ensures Distinct(Recent(uses))
  {
    if uses != [] {
      RecentDistinct(uses[..|uses| - 1]);
      TouchDistinct(Recent(uses[..|uses| - 1]), uses[|uses| - 1]);
    }
  }

  lemma {:induction false} LastUseBound(uses: seq<Key>, k: Key)
    ensures LastUse(uses, k) <= |uses|
    ensures LastUse(uses, k) > 0 <==> k in uses
  {
    if uses != [] {
      assert uses == uses[..|uses| - 1] + [uses[|uses| - 1]];
      LastUseBound(uses[..|uses| - 1], k);
    }
  }

  /** Ordered by a rank. */
  ghost predicate Ascending(order: seq<Key>, uses: seq<Key>) {
    forall i, j :: 0 <= i < j < |order| ==> LastUse(uses, order[i]) < LastUse(uses, order[j])
  }

  lemma {:induction false} WithoutAscending(order: seq<Key>, uses: seq<Key>, k: Key)
    requires Ascending(order, uses)
    ensures Ascending(Without(order, k), uses)
  {
    hide LastUse;
    if order != [] {
      var rest := Without(order[1..], k);
      WithoutAscending(order[1..], uses, k);
      forall x | x in rest ensures LastUse(uses, order[0]) < LastUse(uses, x) {
        var i :| 0 <= i < |order[1..]| && order[1..][i] == x;
        assert order[i + 1] == x;
      }
    }
  }

  /** `Recent` lists the keys used, each once, in the order of their last use. */
  lemma {:induction false} RecentIsByLastUse(uses: seq<Key>)
    ensures Distinct(Recent(uses))
    ensures forall k :: k in Recent(uses) <==> k in uses
    ensures Ascending(Recent(uses), uses)
  {
    RecentDistinct(uses);
    if uses != [] {
      var before, k := uses[..|uses| - 1], uses[|uses| - 1];
      var elder := Recent(before);
      assert uses == before + [k];
      RecentIsByLastUse(before);
      WithoutAscending(elder, before, k);
      forall x | x in Without(elder, k) ensures LastUse(uses, x) == LastUse(before, x) < |uses| {
        LastUseBound(before, x);
      }
      forall i, j | 0 <= i < j < |Recent(uses)|
        ensures LastUse(uses, Recent(uses)[i]) < LastUse(uses, Recent(uses)[j])
      {
        assert Recent(uses)[i] in Without(elder, k);
        if j < |Without(elder, k)| {
          assert Recent(uses)[j] in Without(elder, k);
        }
      }
    }
  }

  /******* Read, then store on a miss *******/

  /** A call of `get_or_fetch`: what its fetch, if started, returns or raises, and the time by then. */
  datatype Call<V> = Call(key: Key, now: real, fetched: Result<Option<V>, string>, later: real)

  ghost predicate AllSucceed<V>(calls: seq<Call<V>>) {
    forall i :: 0 <= i < |calls| ==> calls[i].fetched.Success?
  }

  ghost predicate AllCacheable<V>(calls: seq<Call<V>>) {
    forall i :: 0 <= i < |calls| ==> Cacheable(calls[i].key)
  }

  function Keys<V>(calls: seq<Call<V>>): (ks: seq<Key>)
    ensures |ks| == |calls|
    ensures forall i :: 0 <= i < |ks| ==> ks[i] == calls[i].key
  {
    seq(|calls|, i requires 0 <= i < |calls| => calls[i].key)
  }

  function CallOnce<V>(c: State<V>, max: nat, call: Call<V>): State<V> {
    var d := Get(c, call.key, call.now);
    if Found(c, call.key, call.now).Some? || call.fetched.Failure? then d
    else Set(d, max, call.key, call.fetched.value, call.later)
  }

  function RunCalls<V>(max: nat, calls: seq<Call<V>>): State<V> {
    if calls == [] then Empty() else CallOnce(RunCalls(max, calls[..|calls| - 1]), max, calls[|calls| - 1])
  }

  /** The reads and stores that a sequence of calls leaves in the cache's log, as `TTLCache.GetOrFetch` does. */
  function CallLog<V>(max: nat, calls: seq<Call<V>>): seq<Event<V>> {
    if calls == [] then [] else
      var before, call := calls[..|calls| - 1], calls[|calls| - 1];
      var log := CallLog(max, before) + [GetEv(call.key, call.now)];
      if Found(RunCalls(max, before), call.key, call.now).Some? || call.fetched.Failure? then log
      else log + [SetEv(call.key, call.fetched.value, call.later)]
  }

  lemma {:induction false} CallsAreLogged<V>(max: nat, calls: seq<Call<V>>)
    ensures Run(max, CallLog(max, calls)) == RunCalls(max, calls)
  {
    if calls != [] {
      var before, call := calls[..|calls| - 1], calls[|calls| - 1];
      var log := CallLog(max, before);
      CallsAreLogged(max, before);
      RunSnoc(max, log, GetEv(call.key, call.now));
      if call.fetched.Success? {
        RunSnoc(max, log + [GetEv(call.key, call.now)], SetEv(call.key, call.fetched.value, call.later));
      }
    }
  }

  /** A cache object taken through the calls, one by one: its fields, its log and what each call returns. */
  method Drive<V(==)>(cache: TTLCache<V>, calls: seq<Call<V>>) returns (answers: seq<Result<Option<V>, string>>)
    requires cache.Valid() && cache.log == []
    modifies cache
    ensures cache.Valid() && cache.log == CallLog(cache.max, calls)
    ensures cache.Contents() == RunCalls(cache.max, calls)
    ensures |answers| == |calls|
    ensures forall i :: 0 <= i < |calls| ==> answers[i] == AnswerTo(RunCalls(cache.max, calls[..i]), calls[i])
  {
    hide Run, RunCalls, CallOnce, CallLog, Found;
    NothingLogged<V>(cache.max);
    answers := [];
    for i := 0 to |calls|
      invariant cache.Valid() && cache.log == CallLog(cache.max, calls[..i])
      invariant |answers| == i
      invariant forall j :: 0 <= j < i ==> answers[j] == AnswerTo(RunCalls(cache.max, calls[..j]), calls[j])
    {
      var call := calls[i];
      CallsAreLogged(cache.max, calls[..i]);
      var answer := cache.GetOrFetch(call.key.kind, call.key.id, call.now, call.fetched, call.later);
      LogSnoc(cache.max, calls, i);
      answers := answers + [answer];
    }
    assert calls[..|calls|] == calls;
    CallsAreLogged(cache.max, calls);
  }

  lemma NothingLogged<V>(max: nat)
    ensures CallLog<V>(max, []) == []
  {}

  /** What one more call adds to the log. */
  lemma LogSnoc<V>(max: nat, calls: seq<Call<V>>, i: nat)
    requires i < |calls|
    ensures var call := calls[i];
      CallLog(max, calls[..i + 1]) == CallLog(max, calls[..i]) + [GetEv(call.key, call.now)]
        + (if Found(RunCalls(max, calls[..i]), call.key, call.now).None? && call.fetched.Success?
           then [SetEv(call.key, call.fetched.value, call.later)] else [])
  {
    hide RunCalls, Found;
    assert calls[..i + 1][..i] == calls[..i];
  }

  /** What a call returns or raises: the payload found, or what its fetch makes of it. */
  function AnswerTo<V>(c: State<V>, call: Call<V>): Result<Option<V>, string> {
    var hit := Found(c, call.key, call.now);
    if hit.Some? then Success(hit) else call.fetched
  }

  lemma {:induction false} CallsWellFormed<V>(max: nat, calls: seq<Call<V>>)
    ensures WellFormed(RunCalls(max, calls), max)
  {
    if calls != [] {
      var c, call := RunCalls(max, calls[..|calls| - 1]), calls[|calls| - 1];
      CallsWellFormed(max, calls[..|calls| - 1]);
      StepWellFormed(c, max, GetEv(call.key, call.now));
      if call.fetched.Success? {
        StepWellFormed(Get(c, call.key, call.now), max, SetEv(call.key, call.fetched.value, call.later));
      }
    }
  }

  /** Hit, miss or expiry: the key ends up last, and the oldest make room. */
  lemma CallTouches<V>(c: State<V>, max: nat, call: Call<V>)
    requires WellFormed(c, max) && Cacheable(call.key) && call.fetched.Success?
    ensures CallOnce(c, max, call).order == Last(max, Touch(c.order, call.key))
  {
    var k, d := call.key, Get(c, call.key, call.now);
    TouchDistinct(c.order, k);
    StepWellFormed(c, max, GetEv(k, call.now));
    PlacedWellFormed(d, max, k, call.fetched.value, call.later);
    EvictKeepsLast(Place(d, k, call.fetched.value, call.later), max);
    TouchAgain(c.order, k);
  }

  lemma TouchAgain(order: seq<Key>, k: Key)
    ensures Touch(Touch(order, k), k) == Touch(order, k)
    ensures Touch(Without(order, k), k) == Touch(order, k)
  {
    WithoutAppend(Without(order, k), [k], k);
  }

  lemma LastOfAppend(n: nat, xs: seq<Key>, ys: seq<Key>)
    requires n <= |ys|
    ensures Last(n, xs + ys) == Last(n, ys)
  {}

  /** Touching commutes with forgetting all but the last `n`. */
  lemma TouchLast(n: nat, order: seq<Key>, k: Key)
    requires Distinct(order)
    ensures Last(n, Touch(Last(n, order), k)) == Last(n, Touch(order, k))
  {
    if |order| > n {
      hide Without, Distinct;
      var cut := |order| - n;
      var elder, kept := order[..cut], order[cut..];
      DropDistinct(order, cut);
      TouchDistinct(kept, k);
      assert order == elder + kept;
      WithoutAppend(elder, kept, k);
      assert Touch(order, k) == Without(elder, k) + Touch(kept, k);
      LastOfAppend(n, Without(elder, k), Touch(kept, k));
    }
  }

  lemma DropDistinct(order: seq<Key>, n: nat)
    requires Distinct(order) && n <= |order|
    ensures Distinct(order[n..])
  {}

  /**
   LRU refinement for calls whose fetches succeed: whatever the clock did and however many entries expired in between, the stored keys
   in order are the last `max` distinct keys by most recent use.
   */
  lemma {:induction false} KeepsMostRecent<V>(max: nat, calls: seq<Call<V>>)
    requires AllCacheable(calls) && AllSucceed(calls)
    ensures RunCalls(max, calls).order == Last(max, Recent(Keys(calls)))
  {
    if calls != [] {
      var before, call := calls[..|calls| - 1], calls[|calls| - 1];
      KeepsMostRecent(max, before);
      CallsWellFormed(max, before);
      CallTouches(RunCalls(max, before), max, call);
      assert Keys(calls)[..|calls| - 1] == Keys(before);
      RecentDistinct(Keys(before));
      TouchLast(max, Recent(Keys(before)), call.key);
    }
  }

  /** Inclusion: on one trace a smaller cache holds the most recent keys of a larger one, in its order. */
  lemma SmallerIsSuffix<V>(small: nat, large: nat, calls: seq<Call<V>>)
    requires AllCacheable(calls) && AllSucceed(calls) && small <= large
    ensures var s, l := RunCalls(small, calls).order, RunCalls(large, calls).order;
      |s| <= |l| && s == l[|l| - |s|..]
  {
    hide RunCalls, Recent;
    KeepsMostRecent(small, calls);
    KeepsMostRecent(large, calls);
  }

  /******* Working sets *******/

  /** A call that puts its key last: a store of a cacheable kind, or a read that finds its entry in time. */
  predicate Uses<V>(c: State<V>, e: Event<V>) {
    match e
    case GetEv(k, now) => k in c.data && Fresh(c.data[k], k.kind, now)
    case SetEv(k, _, _) => Cacheable(k)
    case ClearEv => false
  }

  /** The other keys used in the log since `k` was last, starting from cache `c`. */
  function Gap<V>(c: State<V>, max: nat, log: seq<Event<V>>, k: Key): set<Key> {
    if log == [] then {} else
      var before, e := log[..|log| - 1], log[|log| - 1];
      if !Uses(After(c, max, before), e) then Gap(c, max, before, k)
      else if e.key == k then {}
      else Gap(c, max, before, k) + {e.key}
  }

  /** After a `set` of `k` at time `start`: only reads of `k`, no `clear`, up to time `now`. */
  ghost predicate Undisturbed<V>(log: seq<Event<V>>, k: Key, now: real) {
    forall i :: 0 <= i < |log| ==>
      !log[i].ClearEv? && !(log[i].SetEv? && log[i].key == k) && log[i].now <= now
  }

  /** Between uses of `k` fewer than `max` distinct other keys are used. */
  ghost predicate SmallGaps<V>(c: State<V>, max: nat, log: seq<Event<V>>, k: Key) {
    forall n :: 0 <= n <= |log| ==> |Gap(c, max, log[..n], k)| < max
  }

  /** The keys younger than `k`. */
  function Younger(order: seq<Key>, k: Key): seq<Key> {
    if order == [] then [] else if order[0] == k then order[1..] else Younger(order[1..], k)
  }

  /** `k` is stored, and only keys from `later` are younger. */
  ghost predicate Safe<V>(c: State<V>, k: Key, s: Stored<V>, later: set<Key>) {
    k in c.data && c.data[k] == s && SafeIn(c.order, k, later)
  }

  ghost predicate SafeIn(order: seq<Key>, k: Key, later: set<Key>) {
    k in order && forall x :: x in Younger(order, k) ==> x in later
  }

  function After<V>(c: State<V>, max: nat, log: seq<Event<V>>): State<V> {
    if log == [] then c else Step(After(c, max, log[..|log| - 1]), max, log[|log| - 1])
  }

  /** There is no room for more distinct keys than the set has. */
  lemma {:induction false} DistinctFits(order: seq<Key>, later: set<Key>)
    requires Distinct(order) && forall x :: x in order ==> x in later
    ensures |order| <= |later|
  {
    if order != [] {
      var n := |order| - 1;
      var x := order[n];
      assert order == order[..n] + [x];
      DistinctFits(order[..n], later - {x});
      assert |later - {x}| == |later| - 1;
    }
  }

  lemma {:induction false} YoungerWithout(order: seq<Key>, k: Key, x: Key)
    requires x != k
    ensures Younger(Without(order, x), k) == Without(Younger(order, k), x)
  {
    if order != [] {
      YoungerWithout(order[1..], k, x);
    }
  }

  lemma {:induction false} YoungerAppend(order: seq<Key>, k: Key, tail: seq<Key>)
    ensures Younger(order + tail, k) == if k in order then Younger(order, k) + tail else Younger(tail, k)
  {
    if order == [] {
      assert order + tail == tail;
    } else {
      assert (order + tail)[1..] == order[1..] + tail;
      YoungerAppend(order[1..], k, tail);
    }
  }

  /** The keys younger than `k` come after it. */
  lemma {:induction false} YoungerLength(order: seq<Key>, k: Key, cut: nat)
    requires Distinct(order) && cut <= |order| && k in order[..cut]
    ensures |Younger(order, k)| >= |order| - cut
    ensures Distinct(Younger(order, k))
  {
    DropDistinct(order, 1);
    if order[0] != k {
      assert order[..cut] == [order[0]] + order[1..][..cut - 1];
      YoungerLength(order[1..], k, cut - 1);
    }
  }

  /** Removing or touching another key keeps `k` and what is younger. */
  lemma OtherKeepsOrder(order: seq<Key>, k: Key, x: Key, later: set<Key>)
    requires SafeIn(order, k, later) && x != k
    ensures SafeIn(Without(order, x), k, later)
    ensures SafeIn(Touch(order, x), k, later + {x})
  {
    YoungerWithout(order, k, x);
    YoungerAppend(Without(order, x), k, [x]);
  }

  /** Eviction keeps `k` when the keys that may be younger fit beside it. */
  lemma EvictionKeepsOrder(order: seq<Key>, k: Key, later: set<Key>, max: nat)
    requires Distinct(order) && SafeIn(order, k, later) && |later| < max
    ensures SafeIn(Last(max, order), k, later)
  {
    if |order| > max {
      var cut := |order| - max;
      assert order == order[..cut] + order[cut..];
      if k in order[..cut] {
        YoungerLength(order, k, cut);
        DistinctFits(Younger(order, k), later);
        assert false;
      }
      YoungerAppend(order[..cut], k, order[cut..]);
    }
  }

  /** A use of another key keeps `k`, as long as the keys that may be younger fit beside it. */
  lemma OtherKeepsSafe<V>(c: State<V>, max: nat, k: Key, s: Stored<V>, later: set<Key>, e: Event<V>)
    requires WellFormed(c, max) && Safe(c, k, s, later)
    requires Uses(c, e) && e.key != k && |later + {e.key}| < max
    ensures Safe(Step(c, max, e), k, s, later + {e.key})
  {
    hide Evict, SafeIn;
    var x, wide := e.key, later + {e.key};
    OtherKeepsOrder(c.order, k, x, later);
    if e.SetEv? {
      StoreKeepsSafe(c, max, k, s, wide, e);
    }
  }

  /** A call for another key that uses none takes no room. */
  lemma IdleKeepsSafe<V>(c: State<V>, max: nat, k: Key, s: Stored<V>, later: set<Key>, e: Event<V>)
    requires Safe(c, k, s, later)
    requires !e.ClearEv? && !Uses(c, e) && e.key != k
    ensures Safe(Step(c, max, e), k, s, later)
  {
    hide SafeIn;
    OtherKeepsOrder(c.order, k, e.key, later);
  }

  lemma StoreKeepsSafe<V>(c: State<V>, max: nat, k: Key, s: Stored<V>, wide: set<Key>, e: Event<V>)
    requires WellFormed(c, max) && k in c.data && c.data[k] == s
    requires e.SetEv? && Cacheable(e.key) && e.key != k && |wide| < max
    requires SafeIn(Touch(c.order, e.key), k, wide)
    ensures Safe(Step(c, max, e), k, s, wide)
  {
    hide Evict, SafeIn;
    var placed := Place(c, e.key, e.payload, e.now);
    PlacedWellFormed(c, max, e.key, e.payload, e.now);
    EvictKeepsLast(placed, max);
    EvictionKeepsOrder(placed.order, k, wide, max);
    SafeIsIn(Last(max, placed.order), k, wide);
  }

  lemma SafeIsIn(order: seq<Key>, k: Key, later: set<Key>)
    requires SafeIn(order, k, later)
    ensures k in order
  {}

  /** A read of `k` within its time to live finds it, and makes it the youngest. */
  lemma ReadKeepsSafe<V>(c: State<V>, max: nat, k: Key, s: Stored<V>, later: set<Key>, now: real)
    requires Safe(c, k, s, later) && Fresh(s, k.kind, now)
    ensures Uses(c, GetEv(k, now)) && Safe(Step(c, max, GetEv(k, now)), k, s, {})
  {
    YoungestIsSafe(Without(c.order, k), k);
  }

  lemma YoungestIsSafe(order: seq<Key>, k: Key)
    requires k !in order
    ensures SafeIn(order + [k], k, {})
  {
    YoungerAppend(order, k, [k]);
    assert [k][0] == k;
  }

  lemma StoreIsSafe<V>(c: State<V>, max: nat, k: Key, payload: Option<V>, at: real)
    requires WellFormed(c, max) && Cacheable(k) && max > 0
    ensures Safe(Set(c, max, k, payload, at), k, Stored(at, payload), {})
    ensures WellFormed(Set(c, max, k, payload, at), max)
  {
    PlacedWellFormed(c, max, k, payload, at);
    EvictKeepsLast(Place(c, k, payload, at), max);
    YoungestIsSafe(Without(c.order, k), k);
    EvictionKeepsOrder(Touch(c.order, k), k, {}, max);
  }

  lemma {:induction false} StaysSafe<V>(c: State<V>, max: nat, k: Key, s: Stored<V>, log: seq<Event<V>>, now: real)
    requires WellFormed(c, max) && Safe(c, k, s, {})
    requires Undisturbed(log, k, now) && SmallGaps(c, max, log, k) && Fresh(s, k.kind, now)
    ensures WellFormed(After(c, max, log), max)
    ensures Safe(After(c, max, log), k, s, Gap(c, max, log, k))
  {
    if log != [] {
      hide Step, WellFormed, Uses, SafeIn;
      var before, e := log[..|log| - 1], log[|log| - 1];
      forall n | 0 <= n <= |before| ensures |Gap(c, max, before[..n], k)| < max {
        assert before[..n] == log[..n];
      }
      assert log[..|log|] == log;
      StaysSafe(c, max, k, s, before, now);
      var d, later := After(c, max, before), Gap(c, max, before, k);
      StepWellFormed(d, max, e);
      if e.key == k {
        ReadKeepsSafe(d, max, k, s, later, e.now);
      } else if Uses(d, e) {
        OtherKeepsSafe(d, max, k, s, later, e);
      } else {
        IdleKeepsSafe(d, max, k, s, later, e);
      }
    }
  }

  lemma {:induction false} RunAfter<V>(max: nat, log: seq<Event<V>>, more: seq<Event<V>>)
    ensures Run(max, log + more) == After(Run(max, log), max, more)
  {
    if more == [] {
      assert log + more == log;
    } else {
      var n := |more| - 1;
      RunAfter(max, log, more[..n]);
      assert log + more == log + more[..n] + [more[n]];
      RunSnoc(max, log + more[..n], more[n]);
    }
  }

  /**
   Working-set guarantee for arbitrary reads and stores: if, after the last `set` of `k`, fewer than
   `max` distinct other keys are used between any two uses of `k`, then as long as that `set` is within
   the time to live, `get` returns its payload. Reads that find nothing and kinds that are never cached
   do not count.
   */
  lemma WorkingSetIsServed<V>(max: nat, log: seq<Event<V>>, k: Key, payload: Option<V>, at: real,
                              more: seq<Event<V>>, now: real)
    requires Undisturbed(more, k, now) && SmallGaps(Run(max, log + [SetEv(k, payload, at)]), max, more, k)
    requires ((k.kind == "block" || k.kind == "transaction") && now - at <= 3600.0)
      || ((k.kind == "asset" || k.kind == "application") && now - at <= 300.0)
    ensures Found(Run(max, log + [SetEv(k, payload, at)] + more), k, now) == payload
  {
    TimesToLive(Stored(at, payload), k.kind, now);
    var c := Run(max, log + [SetEv(k, payload, at)]);
    assert Gap(c, max, more[..0], k) == {};
    RunWellFormed(max, log);
    RunSnoc(max, log, SetEv(k, payload, at));
    StoreIsSafe(Run(max, log), max, k, payload, at);
    StaysSafe(c, max, k, Stored(at, payload), more, now);
    RunAfter(max, log + [SetEv(k, payload, at)], more);
  }

  /** Reads and stores of other keys only. */
  ghost predicate Elsewhere<V>(log: seq<Event<V>>, k: Key, now: real) {
    forall i :: 0 <= i < |log| ==> !log[i].ClearEv? && log[i].key != k && log[i].now <= now
  }

  lemma {:induction false} GapGrows<V>(c: State<V>, max: nat, log: seq<Event<V>>, k: Key, now: real, n: nat)
    requires Elsewhere(log, k, now) && n <= |log|
    ensures Gap(c, max, log[..n], k) <= Gap(c, max, log, k)
  {
    if n == |log| {
      assert log[..n] == log;
    } else {
      hide Uses, After;
      var before := log[..|log| - 1];
      assert log[..n] == before[..n];
      GapGrows(c, max, before, k, now, n);
    }
  }

  lemma SmallerOrEqual<T>(a: set<T>, b: set<T>)
    requires a <= b
    ensures |a| <= |b|
  {
    assert b == a + (b - a);
  }

  /**
   A hit guarantees the next one: after a `get` that found `k`, as long as fewer than `max` distinct other
   keys are used, `get` returns the payload of the same last `set` for the rest of its time to live.
   */
  lemma HitIsServedAgain<V>(max: nat, log: seq<Event<V>>, k: Key, at: real, more: seq<Event<V>>, now: real)
    requires Found(Run(max, log), k, at).Some?
    requires Elsewhere(more, k, now) && |Gap(Run(max, log + [GetEv(k, at)]), max, more, k)| < max
    requires LastSet(log, k).Some?
    requires ((k.kind == "block" || k.kind == "transaction") && now - LastSet(log, k).value.at <= 3600.0)
      || ((k.kind == "asset" || k.kind == "application") && now - LastSet(log, k).value.at <= 300.0)
    ensures Found(Run(max, log + [GetEv(k, at)] + more), k, now) == Found(Run(max, log), k, at)
  {
    var c, d := Run(max, log), Run(max, log + [GetEv(k, at)]);
    TimesToLive(LastSet(log, k).value, k.kind, now);
    RunWellFormed(max, log);
    DataIsLastSet(max, log, k);
    StepWellFormed(c, max, GetEv(k, at));
    RunSnoc(max, log, GetEv(k, at));
    YoungestIsSafe(Without(c.order, k), k);
    forall n | 0 <= n <= |more| ensures |Gap(d, max, more[..n], k)| < max {
      GapGrows(d, max, more, k, now, n);
      SmallerOrEqual(Gap(d, max, more[..n], k), Gap(d, max, more, k));
    }
    StaysSafe(d, max, k, c.data[k], more, now);
    RunAfter(max, log + [GetEv(k, at)], more);
  }
}
