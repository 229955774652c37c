/** `req_with_retry`: at most `max_tries` calls of the HTTP layer, a linear
    back-off of `2 * k` seconds before attempt `k > 0`, stopping at the first
    response below 500. A connection error on the last attempt is raised as
    "Cannot connect to API"; a server error on the last attempt is returned. */
module Retry {
  import opened Http

  /** Attempt ceiling used when the caller passes `None`. */
  const DefaultMaxTries := 5

  /** One run of the retry loop: what it returned or raised, how many calls of
      the HTTP layer it made, and the seconds it slept, in order. */
  datatype RetryRun = RetryRun(result: Result<Option<Response>, ClientException>, calls: nat, sleeps: seq<int>)

  function CannotConnect(cause: string): ClientException {
    ClientException("Cannot connect to API", None, Some(cause))
  }

  /** The loop stops at a response with a status below 500. */
  predicate Accepted(o: Outcome) {
    o.Resp? && o.response.status < 500
  }

  /** A response the loop retries on. */
  predicate ServerError(o: Outcome) {
    o.Resp? && o.response.status >= 500
  }

  function Limit(maxTries: Option<int>): int {
    if maxTries.None? then DefaultMaxTries else maxTries.value
  }

  /** The outcome attempt `k` of a loop started at network position `pos` gets. */
  function AttemptOutcome(net: Network, pos: nat, k: nat): Outcome {
    At(net, pos + k)
  }

  /** The sleeps made before attempts `lo` .. `hi - 1`. */
  function Backoff(lo: nat, hi: nat): (s: seq<int>)
    requires lo <= hi
    ensures |s| == hi - lo
    ensures forall k :: 0 <= k < |s| ==> s[k] == 2 * (lo + k)
  {
    seq(hi - lo, k => 2 * (lo + k))
  }

  function TotalSleep(s: seq<int>): int {
    if |s| == 0 then 0 else TotalSleep(s[..|s| - 1]) + s[|s| - 1]
  }

  /** What a run made of attempts `from` .. `run.calls - 1` looks like, for
      `from < limit`: it made at least one and at most `limit` calls in all,
      slept `2 * k` before each attempt `k > 0`, passed over only connection
      errors and server errors before its last attempt, stopped early only on
      an accepted response, raised exactly when the last allowed attempt was a
      connection error, and otherwise returned the last response it got. */
  predicate RetryPolicy(net: Network, pos: nat, limit: int, from: nat, run: RetryRun)
    requires from < limit
  {
    && from < run.calls <= limit
    && run.sleeps == Backoff(if from == 0 then 1 else from, run.calls)
    && (forall k :: from <= k < run.calls - 1 ==> !Accepted(AttemptOutcome(net, pos, k)))
    && (run.calls < limit ==> Accepted(AttemptOutcome(net, pos, run.calls - 1)))
    && (run.result.Failure? <==> run.calls == limit && AttemptOutcome(net, pos, run.calls - 1).ConnErr?)
    && (run.result.Failure? ==> run.result.error == CannotConnect(AttemptOutcome(net, pos, run.calls - 1).cause))
    && (run.result.Success? ==>
          AttemptOutcome(net, pos, run.calls - 1).Resp?
          && run.result == Success(Some(AttemptOutcome(net, pos, run.calls - 1).response)))
  }

  /** `run` with the sleeps `pre` made before it. */
  function Delayed(pre: seq<int>, run: RetryRun): RetryRun {
    run.(sleeps := pre + run.sleeps)
  }

  lemma DelayedTwice(a: seq<int>, b: seq<int>, run: RetryRun)
    ensures Delayed(a, Delayed(b, run)) == Delayed(a + b, run)
  {
    assert a + (b + run.sleeps) == (a + b) + run.sleeps;
  }

  /** The sleep made before attempt `tries`. */
  function Pause(tries: nat): seq<int> {
    if tries > 0 then [2 * tries] else []
  }

  /** The retry loop from attempt `tries` on, `last` being the latest response
      received; attempt `k` uses outcome `pos + k` of the network. */
  function Attempts(net: Network, pos: nat, limit: int, tries: nat, last: Option<Response>): RetryRun
    requires tries == 0 || tries <= limit
    decreases limit - tries
  {
    if tries >= limit then RetryRun(Success(last), tries, [])
    else
      match At(net, pos + tries)
      case Resp(r) =>
        if r.status < 500 then RetryRun(Success(Some(r)), tries + 1, Pause(tries))
        else Delayed(Pause(tries), Attempts(net, pos, limit, tries + 1, Some(r)))
      case ConnErr(e) =>
        if tries + 1 == limit then RetryRun(Failure(CannotConnect(e)), tries + 1, Pause(tries))
        else Delayed(Pause(tries), Attempts(net, pos, limit, tries + 1, last))
  }

  lemma BackoffFirst(from: nat, calls: nat)
    requires from < calls
    ensures Backoff(if from == 0 then 1 else from, calls)
         == Pause(from) + Backoff(from + 1, calls)
  {
  }

  /** Every run of the loop from attempt `tries` on obeys the retry policy. */
  lemma {:induction false} AttemptsObeyPolicy(net: Network, pos: nat, limit: int, tries: nat, last: Option<Response>)
    requires tries < limit
    ensures RetryPolicy(net, pos, limit, tries, Attempts(net, pos, limit, tries, last))
    decreases limit - tries
  {
    var o := AttemptOutcome(net, pos, tries);
    var run := Attempts(net, pos, limit, tries, last);
    if Accepted(o) || (o.ConnErr? && tries + 1 == limit) {
      assert run.calls == tries + 1 && run.sleeps == Pause(tries);
      assert Backoff(if tries == 0 then 1 else tries, tries + 1) == Pause(tries);
    } else {
      var next := if o.Resp? then Some(o.response) else last;
      var rest := Attempts(net, pos, limit, tries + 1, next);
      assert run == Delayed(Pause(tries), rest);
      if tries + 1 < limit {
        AttemptsObeyPolicy(net, pos, limit, tries + 1, next);
      } else {
        assert rest == RetryRun(Success(next), limit, []);
      }
      BackoffFirst(tries, run.calls);
    }
  }

  /** `req_with_retry(req, max_tries)` whose calls of `req` are outcomes
      `pos`, `pos + 1`, ... of the network. */
  function ReqWithRetry(net: Network, pos: nat, maxTries: Option<int>): (run: RetryRun)
    ensures Limit(maxTries) <= 0 ==> run == RetryRun(Success(None), 0, [])
    ensures Limit(maxTries) > 0 ==> RetryPolicy(net, pos, Limit(maxTries), 0, run)
  {
    if Limit(maxTries) > 0 then AttemptsObeyPolicy(net, pos, Limit(maxTries), 0, None); Attempts(net, pos, Limit(maxTries), 0, None)
    else Attempts(net, pos, Limit(maxTries), 0, None)
  }

  /** The loop of `req_with_retry` as written, with `time.sleep` recorded
      instead of performed. */
  method RetryLoop(net: Network, pos: nat, maxTries: Option<int>) returns (run: RetryRun)
    ensures run == ReqWithRetry(net, pos, maxTries)
  {
    var limit := if maxTries.None? then DefaultMaxTries else maxTries.value;
    ghost var whole := Attempts(net, pos, limit, 0, None);
    var tries: nat := 0;
    var resp: Option<Response> := None;
    var sleeps: seq<int> := [];
    while tries < limit
      invariant tries == 0 || tries <= limit
      invariant whole == Delayed(sleeps, Attempts(net, pos, limit, tries, resp))
      decreases limit - tries
    {
      ghost var here := Attempts(net, pos, limit, tries, resp);
      ghost var before := sleeps;
      sleeps := sleeps + Pause(tries);
      match At(net, pos + tries) {
        case Resp(r) =>
          resp := Some(r);
          if r.status < 500 {
            return RetryRun(Success(resp), tries + 1, sleeps);
          }
        case ConnErr(e) =>
          if tries + 1 == limit {
            return RetryRun(Failure(CannotConnect(e)), tries + 1, sleeps);
          }
      }
      assert here == Delayed(Pause(tries), Attempts(net, pos, limit, tries + 1, resp));
      DelayedTwice(before, Pause(tries), Attempts(net, pos, limit, tries + 1, resp));
      tries := tries + 1;
    }
    run := RetryRun(Success(resp), tries, sleeps);
  }

  lemma {:induction false} BackoffTotal(n: nat)
    requires n >= 1
    ensures TotalSleep(Backoff(1, n)) == n * (n - 1)
  {
    if n > 1 {
      assert Backoff(1, n)[..n - 2] == Backoff(1, n - 1);
      BackoffTotal(n - 1);
    }
  }

  /** A network that never answers: the loop makes exactly `limit` calls,
      sleeps 2 * (1 + ... + (limit - 1)) seconds and raises "Cannot connect to
      API" carrying the last attempt's fault. */
  lemma AllConnectionErrorsRaise(net: Network, pos: nat, maxTries: Option<int>)
    requires Limit(maxTries) >= 1
    requires forall k :: 0 <= k < Limit(maxTries) ==> AttemptOutcome(net, pos, k).ConnErr?
    ensures ReqWithRetry(net, pos, maxTries).calls == Limit(maxTries)
    ensures ReqWithRetry(net, pos, maxTries).result == Failure(CannotConnect(AttemptOutcome(net, pos, Limit(maxTries) - 1).cause))
    ensures TotalSleep(ReqWithRetry(net, pos, maxTries).sleeps) == Limit(maxTries) * (Limit(maxTries) - 1)
  {
    var n := Limit(maxTries);
    BackoffTotal(n);
  }

  /** A server that keeps failing with 5xx: every attempt is made and the last
      response is returned, not raised. */
  lemma ServerErrorsReturnLast(net: Network, pos: nat, maxTries: Option<int>)
    requires Limit(maxTries) >= 1
    requires forall k :: 0 <= k < Limit(maxTries) ==> ServerError(AttemptOutcome(net, pos, k))
    ensures ReqWithRetry(net, pos, maxTries).calls == Limit(maxTries)
    ensures var last := AttemptOutcome(net, pos, Limit(maxTries) - 1);
      last.Resp? && ReqWithRetry(net, pos, maxTries).result == Success(Some(last.response))
  {
  }

  /** A first response below 500 (a 4xx included) is returned with no retry
      and no sleep. */
  lemma AcceptedFirstNoRetry(net: Network, pos: nat, maxTries: Option<int>)
    requires Limit(maxTries) >= 1
    requires Accepted(AttemptOutcome(net, pos, 0))
    ensures ReqWithRetry(net, pos, maxTries) == RetryRun(Success(Some(AttemptOutcome(net, pos, 0).response)), 1, [])
  {
  }
}
