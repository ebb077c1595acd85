/**
 The upstream call of the client: `AlgorandClient._get` over an arbitrary script of upstream
 outcomes, and the HTTP status that the service's exception handler makes of its error.
 Durations are exact rationals of a second.
 */
module Retry {
  import opened Wrappers

  const MAX_RETRIES: nat := 3
  const RETRY_BACKOFF_S := 0.4
  const RETRY_JITTER_S := 0.25
  const MAX_RETRY_AFTER_S := 10.0

  /** What `float(value.strip())` makes of a `Retry-After` header, if there is one. */
  datatype Header = Missing | NotANumber | Seconds(seconds: real) | Infinity(negative: bool)

  /** `_parse_retry_after` */
  function ParseRetryAfter(header: Header): (delay: Option<real>)
    ensures delay.Some? ==> 0.0 <= delay.value <= MAX_RETRY_AFTER_S
  {
    match header
    case Missing => None
    case NotANumber => None
    case Seconds(s) =>
      if s < 0.0 then None else Some(if s <= MAX_RETRY_AFTER_S then s else MAX_RETRY_AFTER_S)
    case Infinity(negative) => if negative then None else Some(MAX_RETRY_AFTER_S)
  }

  /** The errors `_get` can raise; `Unknown` is the fallback after the loop. */
  datatype AlgorandError = NotFound | HttpError(code: int) | TransportFailure | Unknown {
    function Status(): Option<int> {
      match this
      case NotFound => Some(404)
      case HttpError(code) => Some(code)
      case TransportFailure => None
      case Unknown => None
    }

    predicate Retryable() {
      Status().None? || Status().value >= 500 || Status().value == 429
    }

    predicate CallerError() {
      Status().Some? && 400 <= Status().value < 500 && Status().value != 429
    }
  }

  /** One HTTP exchange: a response, or an `aiohttp.ClientError` or timeout. */
  datatype Outcome<+P> = Response(status: int, retryAfter: Header, body: P) | NoResponse {
    /** What the attempt alone would return or raise. */
    function Verdict(): Result<P, AlgorandError> {
      if NoResponse? then Failure(TransportFailure)
      else if status == 404 then Failure(NotFound)
      else if status >= 400 then Failure(HttpError(status))
      else Success(body)
    }

    /** Whether the attempt asks for another one. */
    predicate Retryable() {
      NoResponse? || status >= 500 || status == 429
    }

    function ServerDelay(): Option<real> {
      if NoResponse? then None else ParseRetryAfter(retryAfter)
    }
  }

  /** The outcome of attempt 1, 2, ... of one call, as far as the call gets. */
  type Script<P> = nat -> Outcome<P>

  /** Attempt `n` settles the call: all earlier ones asked for a retry, and it does not or is the last. */
  ghost predicate Settles<P>(script: Script<P>, n: nat) {
    && 1 <= n <= MAX_RETRIES
    && (forall i :: 1 <= i < n ==> script(i).Retryable())
    && (n < MAX_RETRIES ==> !script(n).Retryable())
  }

  function Deciding<P>(script: Script<P>): (n: nat)
    ensures Settles(script, n)
  {
    if !script(1).Retryable() then 1 else if !script(2).Retryable() then 2 else MAX_RETRIES
  }

  /** Exactly one attempt settles a call. */
  lemma DecidingUnique<P>(script: Script<P>, n: nat)
    requires Settles(script, n)
    ensures n == Deciding(script)
  {}

  /** What the call returns or raises. */
  function Answer<P>(script: Script<P>): Result<P, AlgorandError> {
    script(Deciding(script)).Verdict()
  }

  /** The pause after attempt `n`: the server's own request for it, else jittered backoff. */
  function Delay<P>(outcome: Outcome<P>, n: nat, jitter: real): real {
    match outcome.ServerDelay()
    case Some(d) => d
    case None => RETRY_BACKOFF_S * n as real + jitter
  }

  function Sum(xs: seq<real>): real {
    if xs == [] then 0.0 else Sum(xs[..|xs| - 1]) + xs[|xs| - 1]
  }

  ghost predicate Short(sleeps: seq<real>) {
    Sum(sleeps) <= MAX_RETRY_AFTER_S * |sleeps| as real
  }

  lemma OneMorePause(sleeps: seq<real>, delay: real)
    requires Short(sleeps) && delay <= MAX_RETRY_AFTER_S
    ensures Short(sleeps + [delay])
  {
    assert (sleeps + [delay])[..|sleeps|] == sleeps;
  }

  lemma NoPause()
    ensures Short([])
  {}

  lemma TwoPauses(sleeps: seq<real>)
    requires Short(sleeps) && |sleeps| <= 2
    ensures Sum(sleeps) <= 20.0
  {}

  /**
   `AlgorandClient._get`: `jitter(n)` is what `random.uniform(0, RETRY_JITTER_S)` draws after attempt n,
   `sleeps` the durations passed to `asyncio.sleep`.
   */
  method Get<P>(script: Script<P>, jitter: nat -> real)
    returns (answer: Result<P, AlgorandError>, attempts: nat, sleeps: seq<real>)
    requires forall n :: 0.0 <= jitter(n) <= RETRY_JITTER_S
    ensures Settles(script, attempts)
    ensures answer == script(attempts).Verdict()
    ensures answer.Failure? ==> answer.error != Unknown
    ensures |sleeps| == attempts - 1
    ensures forall i :: 0 <= i < |sleeps| ==> sleeps[i] == Delay(script(i + 1), i + 1, jitter(i + 1))
    ensures Sum(sleeps) <= 20.0
  {
    hide Sum, Short, ParseRetryAfter;
    NoPause();
    var last: Option<AlgorandError> := None;
    var retryAfter: Option<real> := None;
    sleeps := [];
    attempts := 0;
    for attempt := 1 to MAX_RETRIES + 1
      invariant attempts == attempt - 1
      invariant forall i :: 1 <= i < attempt ==> script(i).Retryable()
      invariant attempt > 1 ==> last.Some? && script(attempt - 1).Verdict() == Failure(last.value)
      invariant attempt <= MAX_RETRIES ==> retryAfter == None
      invariant |sleeps| == (if attempt <= MAX_RETRIES then attempt - 1 else MAX_RETRIES - 1)
      invariant forall i :: 0 <= i < |sleeps| ==> sleeps[i] == Delay(script(i + 1), i + 1, jitter(i + 1))
      invariant Short(sleeps)
    {
      attempts := attempt;
      TwoPauses(sleeps);
      var response := script(attempt);
      match response {
        case Response(status, header, body) =>
          if status == 404 {
            return Failure(NotFound), attempts, sleeps;
          } else if status >= 400 {
            var err := HttpError(status);
            if !err.Retryable() {
              return Failure(err), attempts, sleeps;
            }
            last := Some(err);
            retryAfter := ParseRetryAfter(header);
          } else {
            return Success(body), attempts, sleeps;
          }
        case NoResponse =>
          last := Some(TransportFailure);
      }
      if attempt < MAX_RETRIES {
        var delay := match retryAfter
          case Some(d) => d
          case None => RETRY_BACKOFF_S * attempt as real + jitter(attempt);
        assert delay <= MAX_RETRY_AFTER_S;
        OneMorePause(sleeps, delay);
        sleeps := sleeps + [delay];
        retryAfter := None;
      }
    }
    TwoPauses(sleeps);
    answer := Failure(if last.Some? then last.value else Unknown);
  }

  /** A header is honoured exactly if it is a number of seconds, none below zero, and up to ten of them. */
  lemma RetryAfterIsExact(header: Header)
    ensures var delay := ParseRetryAfter(header);
      && (delay.Some? <==> (header.Seconds? && header.seconds >= 0.0) || header == Infinity(false))
      && (delay.Some? ==> 0.0 <= delay.value <= 10.0)
      && (delay.Some? && header.Seconds? ==> delay.value <= header.seconds)
      && (delay.Some? && delay.value < 10.0 ==> header == Seconds(delay.value))
  {}

  /** The first of three attempts that has any answer but a 5xx or a 429 settles the call, else the third. */
  lemma SettlingIsExact<P>(script: Script<P>)
    ensures var n := Deciding(script);
      && 1 <= n <= 3
      && (forall i :: 1 <= i < n ==> script(i).NoResponse? || script(i).status >= 500 || script(i).status == 429)
      && (n < 3 ==> script(n).Response? && script(n).status < 500 && script(n).status != 429)
  {}

  /** The answer by its status: a body is returned exactly below 400, any other status is the error's, 404 of a kind of its own. */
  lemma AnswerIsExact<P>(script: Script<P>)
    ensures var o, answer := script(Deciding(script)), Answer(script);
      && (answer.Success? <==> o.Response? && o.status < 400)
      && (answer.Success? ==> answer.value == o.body)
      && (answer.Failure? ==>
          && (answer.error.NotFound? <==> o.Response? && o.status == 404)
          && (answer.error.HttpError? <==> o.Response? && o.status != 404)
          && (answer.error.HttpError? ==> answer.error.code == o.status)
          && answer.error.Status() == (if o.Response? then Some(o.status) else None))
  {}

  /** The pause after attempt n: what the server asks for up to ten seconds, else 0.4 s per attempt and up to 0.25 s more. */
  lemma PausesAreExact<P>(o: Outcome<P>, n: nat, jitter: real)
    requires 0.0 <= jitter <= RETRY_JITTER_S
    ensures var pause := Delay(o, n, jitter);
      && (o.Response? && o.retryAfter.Seconds? && 0.0 <= o.retryAfter.seconds <= 10.0 ==> pause == o.retryAfter.seconds)
      && (o.Response? && o.retryAfter.Seconds? && o.retryAfter.seconds > 10.0 ==> pause == 10.0)
      && (o.Response? && o.retryAfter == Infinity(false) ==> pause == 10.0)
      && (o.NoResponse? || o.retryAfter.Missing? || o.retryAfter.NotANumber? || o.retryAfter == Infinity(true)
          || (o.retryAfter.Seconds? && o.retryAfter.seconds < 0.0) ==>
          pause == 0.4 * n as real + jitter && jitter <= 0.25)
  {}

  /******* Who is blamed *******/

  /** The status that `algorand_error_handler` answers with. */
  function HandlerStatus(e: AlgorandError): int {
    if e.NotFound? then 404
    else if e.Status() == Some(429) then 429
    else if e.CallerError() then 400
    else 502
  }

  /** The label under which the handler counts the error. */
  function UpstreamOutcome(e: AlgorandError): string {
    if HandlerStatus(e) < 500 then "caller_error" else "upstream_error"
  }

  /** The status the caller sees tells exactly which outcome settled the call. */
  lemma BlameIsExact<P>(script: Script<P>)
    requires Answer(script).Failure?
    ensures var o, seen := script(Deciding(script)), HandlerStatus(Answer(script).error);
      && (seen == 502 <==> o.NoResponse? || o.status >= 500)
      && (seen == 429 <==> o.Response? && o.status == 429)
      && (seen == 404 <==> o.Response? && o.status == 404)
      && (seen == 400 <==> o.Response? && 400 <= o.status < 500 && o.status != 404 && o.status != 429)
      && (seen == 502 || seen == 429 || seen == 404 || seen == 400)
      && UpstreamOutcome(Answer(script).error) == (if seen == 502 then "upstream_error" else "caller_error")
  {
    assert "caller_error"[0] != "upstream_error"[0];
  }

  /** A 502 or 429 reaches the caller exactly when all three attempts asked for a retry. */
  lemma OnlyExhaustionIsPassedOn<P>(script: Script<P>)
    ensures (Answer(script).Failure? && HandlerStatus(Answer(script).error) in {502, 429})
      <==> forall n :: 1 <= n <= 3 ==> script(n).NoResponse? || script(n).status >= 500 || script(n).status == 429
  {
    var n := Deciding(script);
    if forall i :: 1 <= i <= MAX_RETRIES ==> script(i).Retryable() {
      assert script(n).Retryable();
    } else {
      var i :| 1 <= i <= MAX_RETRIES && !script(i).Retryable();
      assert i >= n;
      assert !script(n).Retryable();
    }
  }
}
