/**
 `AlgorandClient.health`: the node and the indexer are sampled one after the other, each by a call that
 may retry, and the lag between them is reported raw.
 */
module Health {
  import opened Wrappers
  import opened Amounts
  import opened Retry

  datatype Report = Report(nodeRound: Option<int>, indexerRound: Option<int>, lag: Option<int>,
                           healthy: bool, noted: bool)

  /** The payloads are the rounds the upstreams report, None if a body has no integer round. */
  type Rounds = Script<Option<int>>

  /** What a report says of the two calls, field by field. */
  ghost predicate Describes(report: Report, node: Rounds, indexer: Rounds) {
    && (report.healthy <==> Answer(node).Success? && Answer(indexer).Success?)
    && report.nodeRound == (if Answer(node).Success? then Answer(node).value else None)
    && report.indexerRound == (if Answer(indexer).Success? then Answer(indexer).value else None)
    && (report.lag.Some? <==> report.nodeRound.Some? && report.indexerRound.Some?)
    && (report.lag.Some? ==> report.lag.value == report.nodeRound.value - report.indexerRound.value)
    && (report.noted <==> report.lag.Some? && report.lag.value < 0)
  }

  method Health(node: Rounds, indexer: Rounds, jitter: nat -> real) returns (report: Report)
    requires forall n :: 0.0 <= jitter(n) <= RETRY_JITTER_S
    ensures Describes(report, node, indexer)
  {
    hide Answer, Deciding, Settles;
    var nodeRound: Option<int>, indexerRound: Option<int> := None, None;
    var errors := 0;
    var first, n, _ := Get(node, jitter);
    DecidingUnique(node, n);
    AnswerIsVerdict(node);
    match first {
      case Success(round) => nodeRound := round;
      case Failure(_) => errors := errors + 1;
    }
    var second, m, _ := Get(indexer, jitter);
    DecidingUnique(indexer, m);
    AnswerIsVerdict(indexer);
    match second {
      case Success(round) => indexerRound := round;
      case Failure(_) => errors := errors + 1;
    }
    var lag: Option<int> := None;
    var noted := false;
    if nodeRound.Some? && indexerRound.Some? {
      lag := Some(nodeRound.value - indexerRound.value);
      noted := lag.value < 0;
    }
    report := Report(nodeRound, indexerRound, lag, errors == 0, noted);
  }

  lemma AnswerIsVerdict<P>(script: Script<P>)
    ensures Answer(script) == script(Deciding(script)).Verdict()
  {}

  /******* The report against the two chains *******/

  ghost predicate Rising(round: nat -> int) {
    forall t, u :: t <= u ==> round(t) <= round(u)
  }

  /** Of the attempts made, one that succeeds reports the round reached at its instant `at(n)`. */
  ghost predicate Samples(script: Rounds, round: nat -> int, at: nat -> nat) {
    forall n :: 1 <= n <= Deciding(script) && script(n).Verdict().Success? ==>
      script(n).Verdict().value == Some(round(at(n)))
  }

  /** All attempts of the first call are made before any of the second. */
  ghost predicate Precedes(first: Rounds, firstAt: nat -> nat, second: Rounds, secondAt: nat -> nat) {
    forall m, n :: 1 <= m <= Deciding(first) && 1 <= n <= Deciding(second) ==> firstAt(m) <= secondAt(n)
  }

  /** With rounds that never fall, a lag sampled at two instants is off by what the chains moved in between. */
  lemma SampledLag(node: nat -> int, indexer: nat -> int, first: nat, second: nat, t: nat)
    requires Rising(node) && Rising(indexer)
    requires first <= t <= second
    ensures var sampled, lag := node(first) - indexer(second), node(t) - indexer(t);
      sampled <= lag <= sampled + (node(second) - node(first)) + (indexer(second) - indexer(first))
  {}

  /**
   The reported lag against the true one, however many attempts the two calls took. With rounds that never
   fall and an indexer that never leads its node, a healthy report has a lag; at every instant between the
   two settling attempts it is at most the true lag, and short of it by at most what both chains moved in
   between; and it is noted as negative exactly if the indexer had passed the node's sample by then, so only
   if the node advanced in between.
   */
  lemma ReportedLag(report: Report, node: Rounds, indexer: Rounds, nodeRound: nat -> int, indexerRound: nat -> int,
                    nodeAt: nat -> nat, indexerAt: nat -> nat)
    requires Describes(report, node, indexer)
    requires Rising(nodeRound) && Rising(indexerRound)
    requires forall t :: indexerRound(t) <= nodeRound(t)
    requires Samples(node, nodeRound, nodeAt) && Samples(indexer, indexerRound, indexerAt)
    requires Precedes(node, nodeAt, indexer, indexerAt)
    ensures report.healthy <==> report.lag.Some?
    ensures report.healthy ==>
      var first, second := nodeAt(Deciding(node)), indexerAt(Deciding(indexer));
      && first <= second
      && (forall t :: first <= t <= second ==>
            var lag := nodeRound(t) - indexerRound(t);
            report.lag.value <= lag
              <= report.lag.value + (nodeRound(second) - nodeRound(first)) + (indexerRound(second) - indexerRound(first)))
      && (report.noted <==> nodeRound(first) < indexerRound(second))
      && (report.noted ==> nodeRound(first) < nodeRound(second))
  {
    hide Rising;
    if report.healthy {
      var first, second := nodeAt(Deciding(node)), indexerAt(Deciding(indexer));
      assert report.lag == Some(nodeRound(first) - indexerRound(second));
      forall t | first <= t <= second
        ensures var lag := nodeRound(t) - indexerRound(t);
          report.lag.value <= lag
            <= report.lag.value + (nodeRound(second) - nodeRound(first)) + (indexerRound(second) - indexerRound(first))
      {
        SampledLag(nodeRound, indexerRound, first, second, t);
      }
    }
  }

  /******* The statistics route *******/

  datatype Stats = Stats(totalBlocks: string, chainTip: Option<int>, indexerRound: Option<int>, lag: Option<int>)

  /** What the statistics say of the three calls behind them. */
  ghost predicate Summarises(stats: Stats, status: Rounds, report: Report) {
    && Answer(status).Success?
    && stats.chainTip == Answer(status).value
    && IntOf(stats.totalBlocks) == GetOr(stats.chainTip, 0)
    && stats.indexerRound == report.indexerRound && stats.lag == report.lag
  }

  /** `stats`: the node's status, then `health`, which asks the node again; the error of the first call is passed on. */
  method GetStats(status: Rounds, node: Rounds, indexer: Rounds, jitter: nat -> real)
    returns (answer: Result<Stats, AlgorandError>, ghost report: Report)
    requires forall n :: 0.0 <= jitter(n) <= RETRY_JITTER_S
    ensures answer.Success? <==> Answer(status).Success?
    ensures answer.Success? ==> Describes(report, node, indexer) && Summarises(answer.value, status, report)
    ensures answer.Failure? ==> answer.error == Answer(status).error
  {
    hide Answer, Deciding, Settles, Describes, IntStr, IntOf;
    var tip, n, _ := Get(status, jitter);
    DecidingUnique(status, n);
    AnswerIsVerdict(status);
    report := Report(None, None, None, false, false);
    if tip.Failure? {
      return Failure(tip.error), report;
    }
    var health := Health(node, indexer, jitter);
    report := health;
    IntOfIntStr(GetOr(tip.value, 0));
    answer := Success(Stats(IntStr(GetOr(tip.value, 0)), tip.value, health.indexerRound, health.lag));
  }

  /**
   The tip is older than the lag beside it: subtracting the indexer's round from it never gives more than
   the reported lag, falls short of it by exactly what the node advanced between its two samples, and so
   equals it exactly when the node did not advance.
   */
  lemma TipPredatesLag(stats: Stats, report: Report, status: Rounds, node: Rounds, indexer: Rounds,
                       nodeRound: nat -> int, statusAt: nat -> nat, nodeAt: nat -> nat)
    requires Describes(report, node, indexer) && Summarises(stats, status, report)
    requires Rising(nodeRound) && Samples(status, nodeRound, statusAt) && Samples(node, nodeRound, nodeAt)
    requires Precedes(status, statusAt, node, nodeAt)
    requires stats.lag.Some?
    ensures stats.chainTip.Some? && stats.indexerRound.Some?
    ensures var before, after := nodeRound(statusAt(Deciding(status))), nodeRound(nodeAt(Deciding(node)));
      && before <= after
      && stats.chainTip.value == IntOf(stats.totalBlocks) == before
      && stats.chainTip.value - stats.indexerRound.value == stats.lag.value - (after - before)
  {
    hide IntOf;
  }
}
