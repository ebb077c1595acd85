/**
 The bounded fan-out of `get_address_token_balances`: one lookup task per distinct asset id under a
 semaphore, as a transition system whose scheduler may pick any enabled task at every step. Each
 HTTP attempt of a lookup is a step of its own.
 */
module FanOut {
  import opened Wrappers
  import opened Retry

  const RESOLVE_CONCURRENCY: nat := 8

  type AssetId = int

  /** ASA metadata as far as the holdings page reads it. */
  datatype Params = Params(name: Option<string>, unitName: Option<string>, decimals: Option<int>, total: Option<int>)

  datatype AssetObject = AssetObject(params: Option<Params>)

  /** The indexer's `/v2/assets/{id}` body; absent, null and empty objects are read alike. */
  datatype Payload = Payload(asset: Option<AssetObject>)

  const NO_PARAMS := Params(None, None, None, None)

  function ParamsOf(payload: Payload): Params {
    if payload.asset.Some? && payload.asset.value.params.Some? then payload.asset.value.params.value else NO_PARAMS
  }

  /** What `resolve_one` makes of a verdict: every `AlgorandError` leaves the asset unresolved. */
  function Caught(verdict: Result<Payload, AlgorandError>): Option<Params> {
    match verdict
    case Success(payload) => Some(ParamsOf(payload))
    case Failure(_) => None
  }

  /** The upstream, fixed for the duration of the request: what each attempt for each id meets. */
  type Upstream = AssetId -> Script<Payload>

  /** The metadata that a lookup of `id` made on its own would find. */
  function Resolved(up: Upstream, id: AssetId): Option<Params> {
    Caught(Answer(up(id)))
  }

  /******* The transition system *******/

  /** A task waits for a permit, holds one while `tried` attempts have asked for a retry, or is done. */
  datatype Phase = Waiting | Running(tried: nat) | Done(params: Option<Params>)

  datatype State = State(permits: nat, tasks: map<AssetId, Phase>, requests: nat)

  datatype Action = Acquire(id: AssetId) | Attempt(id: AssetId)

  function Init(ids: set<AssetId>): State {
    State(RESOLVE_CONCURRENCY, map id | id in ids :: Waiting, 0)
  }

  predicate Enabled(s: State, a: Action) {
    && a.id in s.tasks
    && match a
       case Acquire(id) => s.tasks[id].Waiting? && s.permits > 0
       case Attempt(id) => s.tasks[id].Running?
  }

  function Next(up: Upstream, s: State, a: Action): State
    requires Enabled(s, a)
  {
    match a
    case Acquire(id) =>
      s.(permits := s.permits - 1, tasks := s.tasks[id := Running(0)])
    case Attempt(id) =>
      var n := s.tasks[id].tried + 1;
      var outcome := up(id)(n);
      if outcome.Retryable() && n < MAX_RETRIES then
        s.(tasks := s.tasks[id := Running(n)], requests := s.requests + 1)
      else
        State(s.permits + 1, s.tasks[id := Done(Caught(outcome.Verdict()))], s.requests + 1)
  }

  /** The schedule `run` picks an enabled step every time. */
  ghost predicate Legal(up: Upstream, ids: set<AssetId>, run: seq<Action>)
    decreases |run|, 0
  {
    run == [] ||
    (Legal(up, ids, run[..|run| - 1]) && Enabled(After(up, ids, run[..|run| - 1]), run[|run| - 1]))
  }

  ghost function After(up: Upstream, ids: set<AssetId>, run: seq<Action>): State
    requires Legal(up, ids, run)
    decreases |run|, 1
  {
    if run == [] then Init(ids) else Next(up, After(up, ids, run[..|run| - 1]), run[|run| - 1])
  }

  ghost predicate Finished(s: State) {
    forall id :: id in s.tasks ==> s.tasks[id].Done?
  }

  /******* Sums over a set of ids *******/

  ghost function Sum(ids: set<AssetId>, f: AssetId -> nat): nat {
    if exists x :: x in ids then
      var x :| x in ids;
      f(x) + Sum(ids - {x}, f)
    else
      0
  }

  lemma {:induction false} SumRemove(ids: set<AssetId>, f: AssetId -> nat, x: AssetId)
    requires x in ids
    ensures Sum(ids, f) == f(x) + Sum(ids - {x}, f)
  {
    var y :| y in ids && Sum(ids, f) == f(y) + Sum(ids - {y}, f);
    if y != x {
      SumRemove(ids - {y}, f, x);
      SumRemove(ids - {x}, f, y);
      assert ids - {y} - {x} == ids - {x} - {y};
    }
  }

  lemma {:induction false} SumAgree(ids: set<AssetId>, f: AssetId -> nat, g: AssetId -> nat)
    requires forall id :: id in ids ==> f(id) == g(id)
    ensures Sum(ids, f) == Sum(ids, g)
  {
    if x :| x in ids {
      SumRemove(ids, f, x);
      SumRemove(ids, g, x);
      SumAgree(ids - {x}, f, g);
    }
  }

  lemma SumChange(ids: set<AssetId>, f: AssetId -> nat, g: AssetId -> nat, x: AssetId)
    requires x in ids
    requires forall id :: id in ids && id != x ==> f(id) == g(id)
    ensures Sum(ids, g) == Sum(ids, f) - f(x) + g(x)
  {
    SumRemove(ids, f, x);
    SumRemove(ids, g, x);
    SumAgree(ids - {x}, f, g);
  }

  lemma OneFewer(ids: set<AssetId>, x: AssetId, bound: nat)
    requires x in ids
    ensures bound * |ids| == bound * |ids - {x}| + bound
  {
    assert |ids - {x}| == |ids| - 1;
    assert bound * |ids| == bound * (|ids| - 1) + bound;
  }

  lemma {:induction false} SumBound(ids: set<AssetId>, f: AssetId -> nat, bound: nat)
    requires forall id :: id in ids ==> f(id) <= bound
    ensures Sum(ids, f) <= bound * |ids|
  {
    if x :| x in ids {
      hide Sum;
      SumRemove(ids, f, x);
      SumBound(ids - {x}, f, bound);
      OneFewer(ids, x, bound);
    }
  }

  /******* Invariants *******/

  ghost function RunningIds(s: State): set<AssetId> {
    set id | id in s.tasks && s.tasks[id].Running?
  }

  /** HTTP attempts made so far for `id`. */
  function Tried(up: Upstream, s: State, id: AssetId): nat {
    if id !in s.tasks then 0 else
      match s.tasks[id]
      case Waiting => 0
      case Running(n) => n
      case Done(_) => Deciding(up(id))
  }

  /** Steps that `id` still has to take. */
  function Rank(up: Upstream, s: State, id: AssetId): nat {
    if id !in s.tasks then 0 else
      match s.tasks[id]
      case Waiting => Deciding(up(id)) + 1
      case Running(n) => if n < Deciding(up(id)) then Deciding(up(id)) - n else 0
      case Done(_) => 0
  }

  ghost predicate TaskInv(up: Upstream, id: AssetId, phase: Phase) {
    match phase
    case Waiting => true
    case Running(n) => n < Deciding(up(id))
    case Done(params) => params == Resolved(up, id)
  }

  ghost predicate Inv(up: Upstream, ids: set<AssetId>, s: State) {
    && s.tasks.Keys == ids
    && s.permits + |RunningIds(s)| == RESOLVE_CONCURRENCY
    && (forall id :: id in ids ==> TaskInv(up, id, s.tasks[id]))
    && s.requests == Sum(ids, id => Tried(up, s, id))
  }

  lemma InitInv(up: Upstream, ids: set<AssetId>)
    ensures Inv(up, ids, Init(ids))
    ensures Sum(ids, id => Rank(up, Init(ids), id)) == Sum(ids, id => Deciding(up(id)) + 1)
  {
    hide Deciding, Sum;
    var s := Init(ids);
    assert forall id :: id !in RunningIds(s);
    SumBound(ids, id => Tried(up, s, id), 0);
    SumAgree(ids, id => Rank(up, s, id), id => Deciding(up(id)) + 1);
  }

  /** A failed attempt before the last one is not the deciding one; any other is. */
  lemma AttemptDecides(up: Upstream, id: AssetId, n: nat)
    requires n < Deciding(up(id))
    ensures up(id)(n + 1).Retryable() && n + 1 < MAX_RETRIES <==> n + 1 < Deciding(up(id))
  {}

  lemma NextRunning(up: Upstream, s: State, a: Action)
    requires Enabled(s, a)
    ensures var t := Next(up, s, a); t.permits + |RunningIds(t)| == s.permits + |RunningIds(s)|
  {
    var t := Next(up, s, a);
    match t.tasks[a.id]
    case Running(n) =>
      if n == 0 {
        assert RunningIds(t) == RunningIds(s) + {a.id};
      } else {
        assert RunningIds(t) == RunningIds(s);
      }
    case Done(_) =>
      assert RunningIds(t) == RunningIds(s) - {a.id};
  }

  lemma NextTasks(up: Upstream, ids: set<AssetId>, s: State, a: Action)
    requires Inv(up, ids, s) && Enabled(s, a)
    ensures var t := Next(up, s, a);
      && t.tasks.Keys == ids
      && (forall id :: id in ids ==> TaskInv(up, id, t.tasks[id]))
      && (forall id :: id in ids && id != a.id ==> t.tasks[id] == s.tasks[id])
      && Tried(up, t, a.id) == Tried(up, s, a.id) + (t.requests - s.requests)
      && Rank(up, t, a.id) == Rank(up, s, a.id) - 1
  {
    if a.Attempt? {
      AttemptDecides(up, a.id, s.tasks[a.id].tried);
    }
  }

  /** Every step keeps the invariant and takes exactly one off the total rank. */
  lemma NextInv(up: Upstream, ids: set<AssetId>, s: State, a: Action)
    requires Inv(up, ids, s) && Enabled(s, a)
    ensures Inv(up, ids, Next(up, s, a))
    ensures Sum(ids, id => Rank(up, Next(up, s, a), id)) == Sum(ids, id => Rank(up, s, id)) - 1
  {
    var t := Next(up, s, a);
    NextTasks(up, ids, s, a);
    NextRunning(up, s, a);
    SumChange(ids, id => Tried(up, s, id), id => Tried(up, t, id), a.id);
    SumChange(ids, id => Rank(up, s, id), id => Rank(up, t, id), a.id);
  }

  /******* Main results *******/

  /**
   In every reachable state permits and running tasks add up to the semaphore's size, so at most eight
   lookups are in flight, and the length of the schedule is fixed by the work that is left.
   */
  lemma {:induction false} Reachable(up: Upstream, ids: set<AssetId>, run: seq<Action>)
    requires Legal(up, ids, run)
    ensures Inv(up, ids, After(up, ids, run))
    ensures |run| + Sum(ids, id => Rank(up, After(up, ids, run), id)) == Sum(ids, id => Deciding(up(id)) + 1)
    decreases |run|
  {
    if run == [] {
      InitInv(up, ids);
    } else {
      var s := After(up, ids, run[..|run| - 1]);
      Reachable(up, ids, run[..|run| - 1]);
      NextInv(up, ids, s, run[|run| - 1]);
    }
  }

  /** No deadlock: a state that is not finished has an enabled step, and a finished one has none. */
  lemma ProgressIff(up: Upstream, ids: set<AssetId>, s: State)
    requires Inv(up, ids, s)
    ensures Finished(s) <==> forall a :: !Enabled(s, a)
  {
    if !Finished(s) {
      var id :| id in s.tasks && !s.tasks[id].Done?;
      if s.tasks[id].Running? {
        assert Enabled(s, Attempt(id));
      } else if other :| other in RunningIds(s) {
        assert Enabled(s, Attempt(other));
      } else {
        assert forall id :: id !in RunningIds(s);
        assert Enabled(s, Acquire(id));
      }
    }
  }

  lemma Extend(up: Upstream, ids: set<AssetId>, run: seq<Action>, a: Action)
    requires Legal(up, ids, run) && Enabled(After(up, ids, run), a)
    ensures Legal(up, ids, run + [a])
  {
    assert (run + [a])[..|run|] == run;
  }

  /** Every schedule, however it began, can be continued to the end. */
  lemma {:induction false} CanFinish(up: Upstream, ids: set<AssetId>, run: seq<Action>) returns (rest: seq<Action>)
    requires Legal(up, ids, run)
    ensures Legal(up, ids, run + rest) && Finished(After(up, ids, run + rest))
    decreases Sum(ids, id => Deciding(up(id)) + 1) - |run|
  {
    hide Inv, Finished, Legal, After, Enabled, Deciding, Sum;
    Reachable(up, ids, run);
    ProgressIff(up, ids, After(up, ids, run));
    if a :| Enabled(After(up, ids, run), a) {
      Extend(up, ids, run, a);
      Reachable(up, ids, run + [a]);
      var more := CanFinish(up, ids, run + [a]);
      rest := [a] + more;
      assert run + rest == run + [a] + more;
    } else {
      rest := [];
      assert run + rest == run;
    }
  }

  /** The only state a schedule can end in. */
  ghost function Outcomes(up: Upstream, ids: set<AssetId>): State {
    State(RESOLVE_CONCURRENCY, map id | id in ids :: Done(Resolved(up, id)), Sum(ids, id => Deciding(up(id))))
  }

  /**
   Schedule independence: every finished schedule ends in the same state, with every permit returned,
   each id resolved as if it had been looked up alone, and the same number of HTTP requests and steps.
   */
  lemma FinishedStateIsUnique(up: Upstream, ids: set<AssetId>, run: seq<Action>)
    requires Legal(up, ids, run) && Finished(After(up, ids, run))
    ensures After(up, ids, run) == Outcomes(up, ids)
    ensures |run| == Sum(ids, id => Deciding(up(id)) + 1)
  {
    hide Legal, After;
    Reachable(up, ids, run);
    var s := After(up, ids, run);
    SettledState(up, ids, s);
    SumBound(ids, id => Rank(up, s, id), 0);
  }

  lemma SettledState(up: Upstream, ids: set<AssetId>, s: State)
    requires Inv(up, ids, s) && Finished(s)
    ensures s == Outcomes(up, ids)
  {
    hide Deciding;
    assert forall id :: id !in RunningIds(s);
    assert s.tasks == Outcomes(up, ids).tasks;
    SumAgree(ids, id => Tried(up, s, id), id => Deciding(up(id)));
  }

  /** At most three HTTP requests per distinct id, at every moment of every schedule. */
  lemma RequestsAreBounded(up: Upstream, ids: set<AssetId>, run: seq<Action>)
    requires Legal(up, ids, run)
    ensures After(up, ids, run).requests <= 3 * |ids|
    ensures After(up, ids, run).permits + |RunningIds(After(up, ids, run))| == 8
  {
    Reachable(up, ids, run);
    var s := After(up, ids, run);
    SumBound(ids, id => Tried(up, s, id), MAX_RETRIES);
  }

  function Count(run: seq<Action>, a: Action): nat {
    if run == [] then 0 else Count(run[..|run| - 1], a) + (if run[|run| - 1] == a then 1 else 0)
  }

  /**
   Each id is looked up at most once at every moment, and exactly once when its task is done; its
   attempts in the schedule are those its script calls for.
   */
  lemma {:induction false} LookedUpOnce(up: Upstream, ids: set<AssetId>, run: seq<Action>, id: AssetId)
    requires Legal(up, ids, run) && id in ids
    ensures id in After(up, ids, run).tasks
    ensures Count(run, Acquire(id)) == if After(up, ids, run).tasks[id].Waiting? then 0 else 1
    ensures Count(run, Attempt(id)) == Tried(up, After(up, ids, run), id)
    decreases |run|
  {
    Reachable(up, ids, run);
    if run != [] {
      var before, a := run[..|run| - 1], run[|run| - 1];
      LookedUpOnce(up, ids, before, id);
      Reachable(up, ids, before);
      NextTasks(up, ids, After(up, ids, before), a);
    }
  }
}
