/**
 The in-process cache (`TTLCache`): bounded, least recently used first out, with a time to live per kind.
 The specification is a pure state machine over (order, data, statistics); the class that updates its
 fields in place is tied to it by a ghost log of the calls made. Times are exact seconds.
 */
module Cache {
  import opened Wrappers

  datatype Key = Key(kind: string, id: string)

  /** `TTL_SECONDS` */
  function Ttl(kind: string): Option<real> {
    if kind == "block" || kind == "transaction" then Some(3600.0)
    else if kind == "asset" || kind == "application" then Some(300.0)
    else None
  }

  predicate Cacheable(k: Key) {
    Ttl(k.kind).Some?
  }

  /** An entry: when it was stored, and the payload (None being Python's None, a JSON null). */
  datatype Stored<V> = Stored(at: real, payload: Option<V>)

  datatype Stats = Stats(hits: nat, misses: nat, evictions: nat, expirations: nat)

  /** The `OrderedDict` is its key order, oldest first, and its contents. */
  datatype State<V> = State(order: seq<Key>, data: map<Key, Stored<V>>, stats: Stats)

  function Empty<V>(): State<V> {
    State([], map[], Stats(0, 0, 0, 0))
  }

  /******* Orders *******/

  function Without(order: seq<Key>, k: Key): (r: seq<Key>)
    ensures k !in r
    ensures forall x :: x in r <==> x in order && x != k
    ensures k !in order ==> r == order
    ensures |r| <= |order|
  {
    if order == [] then []
    else if order[0] == k then Without(order[1..], k)
    else [order[0]] + Without(order[1..], k)
  }

  /** `k` moved to the end, or added there. */
  function Touch(order: seq<Key>, k: Key): seq<Key> {
    Without(order, k) + [k]
  }

  function Last(n: nat, order: seq<Key>): seq<Key> {
    if |order| <= n then order else order[|order| - n..]
  }

  ghost predicate Distinct(order: seq<Key>) {
    forall i, j :: 0 <= i < j < |order| ==> order[i] != order[j]
  }

  lemma {:induction false} WithoutAppend(xs: seq<Key>, ys: seq<Key>, k: Key)
    ensures Without(xs + ys, k) == Without(xs, k) + Without(ys, k)
  {
    if xs == [] {
      assert xs + ys == ys;
    } else {
      assert (xs + ys)[1..] == xs[1..] + ys;
      WithoutAppend(xs[1..], ys, k);
      assert xs[0] != k ==> [xs[0]] + (Without(xs[1..], k) + Without(ys, k)) == Without(xs, k) + Without(ys, k);
    }
  }

  lemma {:induction false} WithoutDistinct(order: seq<Key>, k: Key)
    requires Distinct(order)
    ensures Distinct(Without(order, k))
    ensures |Without(order, k)| == if k in order then |order| - 1 else |order|
  {
    if order != [] {
      WithoutDistinct(order[1..], k);
      assert order == [order[0]] + order[1..];
      assert order[0] !in order[1..];
    }
  }

  lemma TouchDistinct(order: seq<Key>, k: Key)
    requires Distinct(order)
    ensures Distinct(Touch(order, k))
    ensures |Touch(order, k)| == if k in order then |order| else |order| + 1
  {
    WithoutDistinct(order, k);
  }

  /******* One call *******/

  datatype Event<V> = GetEv(key: Key, now: real) | SetEv(key: Key, payload: Option<V>, now: real) | ClearEv

  predicate Fresh<V>(s: Stored<V>, kind: string, now: real) {
    Ttl(kind).Some? && now - s.at <= Ttl(kind).value
  }

  /** The state after `get`. */
  function Get<V>(c: State<V>, k: Key, now: real): State<V> {
    if !Cacheable(k) then c
    else if k !in c.data then c.(stats := c.stats.(misses := c.stats.misses + 1))
    else if !Fresh(c.data[k], k.kind, now) then
      State(Without(c.order, k), c.data - {k},
            c.stats.(misses := c.stats.misses + 1, expirations := c.stats.expirations + 1))
    else State(Touch(c.order, k), c.data, c.stats.(hits := c.stats.hits + 1))
  }

  /** What `get` returns. */
  function Found<V>(c: State<V>, k: Key, now: real): Option<V> {
    if k in c.data && Fresh(c.data[k], k.kind, now) then c.data[k].payload else None
  }

  /** `popitem(last=False)`, counted as an eviction. */
  function PopOldest<V>(c: State<V>): State<V>
    requires c.order != []
  {
    State(c.order[1..], c.data - {c.order[0]}, c.stats.(evictions := c.stats.evictions + 1))
  }

  function Evict<V>(c: State<V>, max: nat): State<V>
    decreases |c.order|
  {
    if |c.order| > max then Evict(PopOldest(c), max) else c
  }

  /** The entry written at the end of the order, before any eviction. */
  function Place<V>(c: State<V>, k: Key, payload: Option<V>, now: real): State<V> {
    State(Touch(c.order, k), c.data[k := Stored(now, payload)], c.stats)
  }

  /** The state after `set`. */
  function Set<V>(c: State<V>, max: nat, k: Key, payload: Option<V>, now: real): State<V> {
    if !Cacheable(k) then c else Evict(Place(c, k, payload, now), max)
  }

  function Step<V>(c: State<V>, max: nat, e: Event<V>): State<V> {
    match e
    case GetEv(k, now) => Get(c, k, now)
    case SetEv(k, payload, now) => Set(c, max, k, payload, now)
    case ClearEv => State([], map[], c.stats)
  }

  /** The state after a whole log of calls, in order. */
  function Run<V>(max: nat, log: seq<Event<V>>): State<V> {
    if log == [] then Empty() else Step(Run(max, log[..|log| - 1]), max, log[|log| - 1])
  }

  lemma RunSnoc<V>(max: nat, log: seq<Event<V>>, e: Event<V>)
    ensures Run(max, log + [e]) == Step(Run(max, log), max, e)
  {
    assert (log + [e])[..|log|] == log;
  }

  /******* What every call keeps *******/

  ghost predicate WellFormed<V>(c: State<V>, max: nat) {
    && Distinct(c.order)
    && (forall k :: k in c.order <==> k in c.data)
    && |c.order| <= max
    && (forall k :: k in c.order ==> Cacheable(k))
  }

  /** Eviction leaves the most recent `max` entries as they were. */
  lemma {:induction false} EvictKeepsLast<V>(c: State<V>, max: nat)
    requires WellFormed(c, |c.order|)
    ensures var d := Evict(c, max);
      && WellFormed(d, max)
      && d.order == Last(max, c.order)
      && (forall k :: k in d.data ==> k in c.data && d.data[k] == c.data[k])
      && d.stats == c.stats.(evictions := c.stats.evictions + |c.order| - |d.order|)
    decreases |c.order|
  {
    if |c.order| > max {
      hide WellFormed, Last;
      PopWellFormed(c);
      EvictKeepsLast(PopOldest(c), max);
      LastDrop(max, c.order);
    } else {
      SizedWellFormed(c, max);
    }
  }

  lemma LastDrop(n: nat, order: seq<Key>)
    requires |order| > n
    ensures Last(n, order[1..]) == Last(n, order)
    ensures |Last(n, order)| == n
  {}

  lemma PopWellFormed<V>(c: State<V>)
    requires WellFormed(c, |c.order|) && c.order != []
    ensures WellFormed(PopOldest(c), |c.order| - 1)
  {
    assert c.order == [c.order[0]] + c.order[1..];
  }

  lemma SizedWellFormed<V>(c: State<V>, max: nat)
    requires WellFormed(c, |c.order|) && |c.order| <= max
    ensures WellFormed(c, max)
  {}

  lemma PlacedWellFormed<V>(c: State<V>, max: nat, k: Key, payload: Option<V>, now: real)
    requires WellFormed(c, max) && Cacheable(k)
    ensures var d := Place(c, k, payload, now); WellFormed(d, |d.order|)
  {
    TouchDistinct(c.order, k);
  }

  lemma StepWellFormed<V>(c: State<V>, max: nat, e: Event<V>)
    requires WellFormed(c, max)
    ensures WellFormed(Step(c, max, e), max)
  {
    match e
    case GetEv(k, _) =>
      WithoutDistinct(c.order, k);
      TouchDistinct(c.order, k);
    case SetEv(k, payload, now) =>
      if Cacheable(k) {
        PlacedWellFormed(c, max, k, payload, now);
        EvictKeepsLast(Place(c, k, payload, now), max);
      }
    case ClearEv =>
  }

  /** The size stays within the bound, keys are distinct, and every stored key has a declared TTL. */
  lemma {:induction false} RunWellFormed<V>(max: nat, log: seq<Event<V>>)
    ensures WellFormed(Run(max, log), max)
  {
    if log != [] {
      RunWellFormed(max, log[..|log| - 1]);
      StepWellFormed(Run(max, log[..|log| - 1]), max, log[|log| - 1]);
    }
  }

  /******* What a read can return *******/

  /** The last `set` of `k` since the last `clear`. */
  function LastSet<V>(log: seq<Event<V>>, k: Key): Option<Stored<V>> {
    if log == [] then None
    else
      match log[|log| - 1]
      case SetEv(key, payload, now) =>
        if key == k then Some(Stored(now, payload)) else LastSet(log[..|log| - 1], k)
      case GetEv(_, _) => LastSet(log[..|log| - 1], k)
      case ClearEv => None
  }

  lemma {:induction false} DataIsLastSet<V>(max: nat, log: seq<Event<V>>, k: Key)
    requires k in Run(max, log).data
    ensures LastSet(log, k) == Some(Run(max, log).data[k])
  {
    if log != [] {
      var before, e := log[..|log| - 1], log[|log| - 1];
      RunWellFormed(max, before);
      if e.SetEv? && Cacheable(e.key) {
        PlacedWellFormed(Run(max, before), max, e.key, e.payload, e.now);
        EvictKeepsLast(Place(Run(max, before), e.key, e.payload, e.now), max);
      }
      if k in Run(max, before).data {
        DataIsLastSet(max, before, k);
      }
    }
  }

  /** An entry is served for exactly an hour if it is a block or a transaction, five minutes if an asset or application. */
  lemma TimesToLive<V>(s: Stored<V>, kind: string, now: real)
    ensures Fresh(s, kind, now) <==>
      || ((kind == "block" || kind == "transaction") && now - s.at <= 3600.0)
      || ((kind == "asset" || kind == "application") && now - s.at <= 300.0)
    ensures Ttl(kind).Some? <==> kind == "block" || kind == "transaction" || kind == "asset" || kind == "application"
  {
    assert "block"[0] == 'b' && "transaction"[0] == 't' && "asset"[1] == 's' && "application"[1] == 'p';
  }

  /** Nothing but the latest stored payload is ever returned, and never past its time to live. */
  lemma ReadsLatestSet<V>(max: nat, log: seq<Event<V>>, k: Key, now: real)
    requires Found(Run(max, log), k, now).Some?
    ensures var s := LastSet(log, k);
      && s.Some? && Found(Run(max, log), k, now) == s.value.payload
      && (((k.kind == "block" || k.kind == "transaction") && now - s.value.at <= 3600.0)
          || ((k.kind == "asset" || k.kind == "application") && now - s.value.at <= 300.0))
  {
    DataIsLastSet(max, log, k);
    TimesToLive(LastSet(log, k).value, k.kind, now);
  }

  /** A read by the age of the entry it meets: what it returns, which counter it moves, and which entry it drops. */
  lemma ReadsByAge<V>(c: State<V>, k: Key, now: real)
    ensures var d := Get(c, k, now);
      && (k.kind != "block" && k.kind != "transaction" && k.kind != "asset" && k.kind != "application" ==>
          d == c && Found(c, k, now) == None)
      && (k !in c.data ==> d.data == c.data && d.order == c.order && Found(c, k, now) == None)
      && (k in c.data && (k.kind == "block" || k.kind == "transaction") ==>
          ReadAs(c, k, d, Found(c, k, now), now - c.data[k].at <= 3600.0))
      && (k in c.data && (k.kind == "asset" || k.kind == "application") ==>
          ReadAs(c, k, d, Found(c, k, now), now - c.data[k].at <= 300.0))
      && (k !in c.data && Cacheable(k) ==>
          d.stats == Stats(c.stats.hits, c.stats.misses + 1, c.stats.evictions, c.stats.expirations))
  {
    if k in c.data {
      TimesToLive(c.data[k], k.kind, now);
    } else {
      TimesToLive<V>(Stored(now, None), k.kind, now);
    }
  }

  /** A stored entry was found in time, or not: then it is gone, as an expiration and a miss. */
  ghost predicate ReadAs<V>(c: State<V>, k: Key, d: State<V>, found: Option<V>, inTime: bool)
    requires k in c.data
  {
    if inTime then
      && found == c.data[k].payload && d.data == c.data
      && d.stats == Stats(c.stats.hits + 1, c.stats.misses, c.stats.evictions, c.stats.expirations)
    else
      && found == None && d.data == (map x | x in c.data && x != k :: c.data[x])
      && d.stats == Stats(c.stats.hits, c.stats.misses + 1, c.stats.evictions, c.stats.expirations + 1)
  }

  /******* Accounting *******/

  function Gets<V>(log: seq<Event<V>>): nat {
    if log == [] then 0 else
      Gets(log[..|log| - 1]) + (if log[|log| - 1].GetEv? && Cacheable(log[|log| - 1].key) then 1 else 0)
  }

  /** `set`s of a cacheable key that was absent at the time. */
  function Inserts<V>(max: nat, log: seq<Event<V>>): nat {
    if log == [] then 0 else
      var before, e := log[..|log| - 1], log[|log| - 1];
      Inserts(max, before) + (if e.SetEv? && Cacheable(e.key) && e.key !in Run(max, before).data then 1 else 0)
  }

  /** Entries dropped by `clear`. */
  function Cleared<V>(max: nat, log: seq<Event<V>>): nat {
    if log == [] then 0 else
      var before := log[..|log| - 1];
      Cleared(max, before) + (if log[|log| - 1].ClearEv? then |Run(max, before).order| else 0)
  }

  /** The statistics account for every read and for every entry that was ever inserted. */
  lemma {:induction false} Accounting<V>(max: nat, log: seq<Event<V>>)
    ensures var c := Run(max, log);
      && c.stats.hits + c.stats.misses == Gets(log)
      && c.stats.expirations <= c.stats.misses
      && Inserts(max, log) == |c.order| + c.stats.evictions + c.stats.expirations + Cleared(max, log)
  {
    if log != [] {
      var before, e := log[..|log| - 1], log[|log| - 1];
      Accounting(max, before);
      RunWellFormed(max, before);
      if !e.ClearEv? {
        TouchDistinct(Run(max, before).order, e.key);
        WithoutDistinct(Run(max, before).order, e.key);
      }
      if e.SetEv? && Cacheable(e.key) {
        PlacedWellFormed(Run(max, before), max, e.key, e.payload, e.now);
        EvictKeepsLast(Place(Run(max, before), e.key, e.payload, e.now), max);
      }
    }
  }

  /******* The class *******/

  class TTLCache<V(==)> {
    const max: nat
    var order: seq<Key>
    var data: map<Key, Stored<V>>
    var hits: nat
    var misses: nat
    var evictions: nat
    var expirations: nat
    ghost var log: seq<Event<V>>

    ghost function Contents(): State<V>
      reads this
    {
      State(order, data, Stats(hits, misses, evictions, expirations))
    }

    /** The fields are what the specification makes of all calls so far. */
    ghost predicate Valid()
      reads this
    {
      Contents() == Run(max, log)
    }

    constructor (maxEntries: nat)
      ensures Valid() && max == maxEntries && log == []
    {
      max := maxEntries;
      order, data, log := [], map[], [];
      hits, misses, evictions, expirations := 0, 0, 0, 0;
    }

    method Get(kind: string, id: string, now: real) returns (value: Option<V>)
      requires Valid()
      modifies this
      ensures Valid() && log == old(log) + [GetEv(Key(kind, id), now)]
      ensures value == Found(old(Contents()), Key(kind, id), now)
    {
      hide Run, Without, Distinct;
      var k := Key(kind, id);
      RunSnoc(max, log, GetEv(k, now));
      log := log + [GetEv(k, now)];
      var ttl := Ttl(kind);
      if ttl.None? {
        return None;
      }
      if k !in data {
        misses := misses + 1;
        return None;
      }
      var entry := data[k];
      if now - entry.at > ttl.value {
        order, data := Without(order, k), data - {k};
        expirations := expirations + 1;
        misses := misses + 1;
        return None;
      }
      order := Touch(order, k);
      hits := hits + 1;
      return entry.payload;
    }

    method Put(kind: string, id: string, value: Option<V>, now: real)
      requires Valid()
      modifies this
      ensures Valid() && log == old(log) + [SetEv(Key(kind, id), value, now)]
    {
      hide Run, Without, Distinct;
      var k := Key(kind, id);
      RunSnoc(max, log, SetEv(k, value, now));
      log := log + [SetEv(k, value, now)];
      if Ttl(kind).None? {
        return;
      }
      order, data := Touch(order, k), data[k := Stored(now, value)];
      ghost var placed := Contents();
      while |order| > max
        invariant Evict(Contents(), max) == Evict(placed, max)
        invariant log == old(log) + [SetEv(k, value, now)]
        decreases |order|
      {
        order, data := order[1..], data - {order[0]};
        evictions := evictions + 1;
      }
    }

    method Clear()
      requires Valid()
      modifies this
      ensures Valid() && log == old(log) + [ClearEv]
    {
      RunSnoc(max, log, ClearEv);
      order, data := [], map[];
      log := log + [ClearEv];
    }

    /**
     `get_or_fetch`, called at `now`; `fetched` is what awaiting the fetch returns or raises, should it
     be started, and `later` the time by then.
     */
    method GetOrFetch<E>(kind: string, id: string, now: real, fetched: Result<Option<V>, E>, later: real)
      returns (answer: Result<Option<V>, E>)
      requires Valid()
      modifies this
      ensures Valid()
      ensures var hit := Found(old(Contents()), Key(kind, id), now);
        && answer == (if hit.Some? then Success(hit) else fetched)
        && log == old(log) + [GetEv(Key(kind, id), now)]
                  + (if hit.None? && fetched.Success? then [SetEv(Key(kind, id), fetched.value, later)] else [])
    {
      var hit := Get(kind, id, now);
      if hit.Some? {
        return Success(hit);
      }
      if fetched.Failure? {
        return fetched;
      }
      Put(kind, id, fetched.value, later);
      return fetched;
    }
  }
}
