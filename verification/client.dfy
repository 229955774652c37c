/** The `Client` of p123api: its configuration, the `auth` step and the
    request-with-authentication-fallback state machine every endpoint goes
    through. The HTTP session is replaced by the scripted network of `Http`;
    the only session state kept is the `Authorization` header. */
module ApiClient {
  import opened Http
  import opened Retry

  const DefaultEndpoint := "https://api.portfolio123.com"
  const AuthPath := "/auth"
  /** `auth` always posts with a 30-second timeout, whatever `set_timeout` said. */
  const AuthTimeout := 30
  const DefaultRetries := 5
  const DefaultTimeout := 300

  /** Values `set_max_request_retries` can store; the constructor's 5 is one. */
  type Retries = r: int | 1 <= r <= 10 witness 5
  /** Values `set_timeout` can store; the constructor's 300 is one. */
  type Timeout = t: int | 1 <= t witness 300

  /** The Python values the validating members are handed. A `bool` is an
      `int` to `isinstance`, so `PyBool` passes the integer checks as 0 or 1. */
  datatype PyValue = PyStr(s: string) | PyInt(i: int) | PyBool(b: bool) | PyNone | PyOther

  predicate IsNonEmptyStr(v: PyValue) {
    v.PyStr? && v.s != ""
  }

  predicate IsInt(v: PyValue) {
    v.PyInt? || v.PyBool?
  }

  function IntOf(v: PyValue): int
    requires IsInt(v)
  {
    if v.PyInt? then v.i else if v.b then 1 else 0
  }

  /** The state of a `Client`: `authorization` is the session's
      `Authorization` header, `token` is `_token`, `authParams` is the JSON
      body `auth` posts. */
  datatype Client = Client(
    endpoint: string,
    verifyRequests: bool,
    maxRetries: Retries,
    timeout: Timeout,
    token: Option<string>,
    authorization: Option<string>,
    authParams: map<string, string>)

  /** The header, when set, is the bearer form of the stored token. */
  predicate HeaderCarriesToken(c: Client) {
    c.authorization.Some? ==> c.token.Some? && c.authorization.value == "Bearer " + c.token.value
  }

  /** `Client(api_id=..., api_key=..., auth_extra=..., endpoint=..., verify_requests=...)`.
      `auth_extra` is spread after the credentials, so its keys win. */
  function NewClient(apiId: PyValue, apiKey: PyValue, authExtra: map<string, string>, endpoint: string, verifyRequests: bool)
    : (r: Result<Client, ClientException>)
    ensures r.Success? <==> IsNonEmptyStr(apiId) && IsNonEmptyStr(apiKey)
    ensures !IsNonEmptyStr(apiId) ==> r == Failure(ClientException("api_id needs to be a non empty str", None, None))
    ensures IsNonEmptyStr(apiId) && !IsNonEmptyStr(apiKey) ==>
      r == Failure(ClientException("api_key needs to be a non empty str", None, None))
    ensures r.Success? ==>
      && r.value.endpoint == endpoint
      && r.value.verifyRequests == verifyRequests
      && r.value.maxRetries == DefaultRetries
      && r.value.timeout == DefaultTimeout
      && r.value.token.None?
      && r.value.authorization.None?
      && r.value.authParams.Keys == {"apiId", "apiKey"} + authExtra.Keys
      && (forall k :: k in authExtra ==> r.value.authParams[k] == authExtra[k])
      && ("apiId" !in authExtra ==> r.value.authParams["apiId"] == apiId.s)
      && ("apiKey" !in authExtra ==> r.value.authParams["apiKey"] == apiKey.s)
    ensures r.Success? ==> HeaderCarriesToken(r.value)
  {
    if !IsNonEmptyStr(apiId) then Failure(ClientException("api_id needs to be a non empty str", None, None))
    else if !IsNonEmptyStr(apiKey) then Failure(ClientException("api_key needs to be a non empty str", None, None))
    else
      var params := map["apiId" := apiId.s, "apiKey" := apiKey.s] + authExtra;
      Success(Client(endpoint, verifyRequests, DefaultRetries, DefaultTimeout, None, None, params))
  }

  /** A setter's effect: the client afterwards, and the exception raised if any. */
  datatype Update = Update(client: Client, error: Option<ClientException>)

  /** `set_max_request_retries(retries)`: accepts exactly the integers 1 to 10
      and otherwise raises, keeping the old value. */
  function SetMaxRequestRetries(c: Client, retries: PyValue): (u: Update)
    ensures u.error.None? <==> IsInt(retries) && 1 <= IntOf(retries) <= 10
    ensures u.error.None? ==> u.client == c.(maxRetries := IntOf(retries))
    ensures u.error.Some? ==>
      u.client == c && u.error.value == ClientException("retries needs to be an int between 1 and 10", None, None)
  {
    if !IsInt(retries) || IntOf(retries) < 1 || IntOf(retries) > 10 then
      Update(c, Some(ClientException("retries needs to be an int between 1 and 10", None, None)))
    else
      Update(c.(maxRetries := IntOf(retries)), None)
  }

  /** `set_timeout(timeout)`: accepts exactly the positive integers and
      otherwise raises, keeping the old value. */
  function SetTimeout(c: Client, timeout: PyValue): (u: Update)
    ensures u.error.None? <==> IsInt(timeout) && IntOf(timeout) >= 1
    ensures u.error.None? ==> u.client == c.(timeout := IntOf(timeout))
    ensures u.error.Some? ==>
      u.client == c && u.error.value == ClientException("timeout needs to be an int greater than 0", None, None)
  {
    if !IsInt(timeout) || IntOf(timeout) < 1 then
      Update(c, Some(ClientException("timeout needs to be an int greater than 0", None, None)))
    else
      Update(c.(timeout := IntOf(timeout)), None)
  }

  datatype Verb = Post | Get | Delete

  /** "POST" posts, "DELETE" deletes, any other method string gets. */
  function VerbOf(httpMethod: string): Verb {
    if httpMethod == "POST" then Post else if httpMethod == "DELETE" then Delete else Get
  }

  /** The keyword arguments of `_req_with_auth_fallback` other than `stop`.
      `params` (the JSON body), `data` (the upload) and `headers` are kept
      opaque. */
  datatype ApiRequest = ApiRequest(
    name: string,
    httpMethod: string,
    url: string,
    params: Option<string>,
    data: Option<string>,
    headers: Option<string>)

  /** What one `req_with_retry` invocation sends, attempt after attempt. */
  datatype Request =
    | AuthPost(url: string, credentials: map<string, string>, timeout: int)
    | ApiCall(verb: Verb, url: string, json: Option<string>, data: Option<string>,
              headers: Option<string>, timeout: int, authorization: string)

  /** One `req_with_retry` invocation: what it sent and how it ran. */
  datatype Exchange = Exchange(request: Request, run: RetryRun)

  /** The effect of a client operation: what it returned or raised, the client
      afterwards, the next unused network position, and the exchanges made. */
  datatype Step<T> = Step(result: Result<T, ClientException>, client: Client, next: nat, trace: seq<Exchange>)

  /** The response an exchange ended with, if it did not raise. */
  function Received(run: RetryRun): Option<Response> {
    if run.result.Success? then run.result.value else None
  }

  /** The status of the response an exchange ended with, if any. */
  function StatusOf(x: Exchange): Option<int> {
    if Received(x.run).Some? then Some(Received(x.run).value.status) else None
  }

  function TotalCalls(trace: seq<Exchange>): nat {
    if |trace| == 0 then 0 else TotalCalls(trace[..|trace| - 1]) + trace[|trace| - 1].run.calls
  }

  function AuthCount(trace: seq<Exchange>): nat {
    if |trace| == 0 then 0
    else AuthCount(trace[..|trace| - 1]) + (if trace[|trace| - 1].request.AuthPost? then 1 else 0)
  }

  const AuthFailedPrefix := "API authentication failed"
  const AccountInactive := "user account inactive"
  const SubscriptionRequired := "paying subscription required"
  const InvalidCredentials := "invalid id/key combination or key inactive"
  const InvalidKey := "invalid key"
  const RequestFailedPrefix := "API request failed"
  const QuotaExhaustedReason := "request quota exhausted"

  /** The reason `auth` gives for a refused status. */
  function AuthReason(status: int, text: string): string {
    if status == 406 then AccountInactive
    else if status == 402 then SubscriptionRequired
    else if status == 401 then InvalidCredentials
    else if status == 400 then InvalidKey
    else text
  }

  function AuthFailed(r: Response): ClientException {
    ClientException(WithDetail(AuthFailedPrefix, AuthReason(r.status, r.text)), Some(r), None)
  }

  /** The detail of a failed request: the body, or the quota message for an
      empty 402. */
  function RequestDetail(r: Response): string {
    if r.text == "" && r.status == 402 then QuotaExhaustedReason else r.text
  }

  function RequestFailed(r: Response): ClientException {
    ClientException(WithDetail(RequestFailedPrefix, RequestDetail(r)), Some(r), None)
  }

  /** `auth()`: clear the session headers, post the credentials with retry,
      and on 200 store the body as the token and as the bearer header; on any
      other status raise. */
  function Auth(c: Client, net: Network, pos: nat): (s: Step<()>)
    ensures |s.trace| == 1
    ensures s.trace[0] == Exchange(AuthPost(c.endpoint + AuthPath, c.authParams, AuthTimeout), ReqWithRetry(net, pos, Some(c.maxRetries)))
    ensures s.next == pos + s.trace[0].run.calls
    ensures s.client.(token := c.token, authorization := c.authorization) == c
    ensures HeaderCarriesToken(s.client)
    ensures s.result.Success? <==> StatusOf(s.trace[0]) == Some(200)
    ensures s.result.Success? ==> s.client.token == Some(Received(s.trace[0].run).value.text) && s.client.authorization.Some?
    ensures s.result.Failure? ==> s.client.authorization.None? && s.client.token == c.token
    ensures s.result.Failure? ==>
      if s.trace[0].run.result.Failure? then s.result.error == s.trace[0].run.result.error
      else Received(s.trace[0].run).Some? && s.result.error == AuthFailed(Received(s.trace[0].run).value)
  {
    var run := ReqWithRetry(net, pos, Some(c.maxRetries));
    var cleared := c.(authorization := None);
    var trace := [Exchange(AuthPost(c.endpoint + AuthPath, c.authParams, AuthTimeout), run)];
    if run.result.Failure? then Step(Failure(run.result.error), cleared, pos + run.calls, trace)
    else
      var r := run.result.value.value;
      if r.status == 200 then
        Step(Success(()), cleared.(token := Some(r.text), authorization := Some("Bearer " + r.text)), pos + run.calls, trace)
      else
        Step(Failure(AuthFailed(r)), cleared, pos + run.calls, trace)
  }

  /** The request `_req_with_auth_fallback` hands to `req_with_retry`: POST
      carries the JSON body and the upload, GET and DELETE carry neither. */
  function Outgoing(c: Client, req: ApiRequest): Request
    requires c.authorization.Some?
  {
    var verb := VerbOf(req.httpMethod);
    ApiCall(verb, req.url,
            if verb == Post then req.params else None,
            if verb == Post then req.data else None,
            req.headers, c.timeout, c.authorization.value)
  }

  /** `x` is a call made for `req`. */
  predicate Carries(x: Request, req: ApiRequest) {
    && x.ApiCall?
    && x.verb == VerbOf(req.httpMethod)
    && x.url == req.url
    && x.headers == req.headers
    && x.json == (if x.verb == Post then req.params else None)
    && x.data == (if x.verb == Post then req.data else None)
  }

  /** The first half of `_req_with_auth_fallback`: a request is sent only
      when an Authorization header is set. */
  function Issue(c: Client, net: Network, pos: nat, req: ApiRequest): (s: Step<Option<Response>>)
    ensures s.client == c
    ensures c.authorization.None? ==> s == Step(Success(None), c, pos, [])
    ensures c.authorization.Some? ==>
      && |s.trace| == 1
      && s.trace[0] == Exchange(Outgoing(c, req), ReqWithRetry(net, pos, Some(c.maxRetries)))
      && s.result == s.trace[0].run.result
      && s.next == pos + s.trace[0].run.calls
      && (s.result.Success? ==> s.result.value.Some?)
  {
    if c.authorization.None? then Step(Success(None), c, pos, [])
    else
      var run := ReqWithRetry(net, pos, Some(c.maxRetries));
      Step(run.result, c, pos + run.calls, [Exchange(Outgoing(c, req), run)])
  }

  /** The first exchange of a trace ended with a 403. */
  predicate FirstForbidden(trace: seq<Exchange>) {
    |trace| > 0 && trace[0].request.ApiCall? && StatusOf(trace[0]) == Some(403)
  }

  /** The responses that send `_req_with_auth_fallback` to `auth`: none at
      all (no header was set) or a 403. */
  predicate NeedsAuth(resp: Option<Response>) {
    resp.None? || resp.value.status == 403
  }

  /** `_req_with_auth_fallback(..., stop=stop)`. Without a header, or on a 403,
      and unless `stop`, it authenticates and calls itself once with
      `stop=True` and without the caller's `headers`; with `stop` set it falls
      through and returns `None`. A 200 is returned, any other status raised. */
  function Fallback(c: Client, net: Network, pos: nat, req: ApiRequest, stop: bool): (s: Step<Option<Response>>)
    decreases if stop then 0 else 2
  {
    var first := Issue(c, net, pos, req);
    if first.result.Failure? then first
    else if NeedsAuth(first.result.value) then
      if stop then Step(Success(None), c, first.next, first.trace)
      else Reauthenticate(c, net, first, req)
    else Judge(first)
  }

  /** The fall-back branch: `auth()`, then the nested call with `stop=True`
      and no `headers`, its exchanges appended to the ones made so far. */
  function Reauthenticate(c: Client, net: Network, first: Step<Option<Response>>, req: ApiRequest): (s: Step<Option<Response>>)
    decreases 1
  {
    var a := Auth(c, net, first.next);
    if a.result.Failure? then Step(Failure(a.result.error), a.client, a.next, first.trace + a.trace)
    else
      var inner := Fallback(a.client, net, a.next, req.(headers := None), true);
      inner.(trace := first.trace + a.trace + inner.trace)
  }

  /** The last branches: a 200 is returned, any other status raised as
      "API request failed". */
  function Judge(first: Step<Option<Response>>): (s: Step<Option<Response>>)
    requires first.result.Success? && first.result.value.Some?
    ensures s.client == first.client && s.next == first.next && s.trace == first.trace
    ensures var r := first.result.value.value;
      s.result == if r.status == 200 then Success(Some(r)) else Failure(RequestFailed(r))
  {
    var r := first.result.value.value;
    if r.status == 200 then first else Step(Failure(RequestFailed(r)), first.client, first.next, first.trace)
  }

  /** The nested call (`stop=True`) never authenticates: it makes at most one
      exchange, leaves the client alone, and returns `None` on a 403 or when
      no header is set. */
  lemma StoppedCall(c: Client, net: Network, pos: nat, req: ApiRequest)
    ensures var s := Fallback(c, net, pos, req, true);
      && s.client == c
      && (c.authorization.None? ==> s == Step(Success(None), c, pos, []))
      && (c.authorization.Some? ==>
            var run := ReqWithRetry(net, pos, Some(c.maxRetries));
            && s.trace == [Exchange(Outgoing(c, req), run)]
            && s.next == pos + run.calls
            && s.result == (if run.result.Failure? then run.result
                            else if NeedsAuth(run.result.value) then Success(None)
                            else if run.result.value.value.status == 200 then run.result
                            else Failure(RequestFailed(run.result.value.value))))
  {
  }

  lemma {:induction false} TotalCallsAppend(a: seq<Exchange>, b: seq<Exchange>)
    ensures TotalCalls(a + b) == TotalCalls(a) + TotalCalls(b)
    decreases |b|
  {
    if |b| > 0 {
      assert (a + b)[..|a + b| - 1] == a + b[..|b| - 1];
      TotalCallsAppend(a, b[..|b| - 1]);
    } else {
      assert a + b == a;
    }
  }

  lemma {:induction false} AuthCountAppend(a: seq<Exchange>, b: seq<Exchange>)
    ensures AuthCount(a + b) == AuthCount(a) + AuthCount(b)
    decreases |b|
  {
    if |b| > 0 {
      assert (a + b)[..|a + b| - 1] == a + b[..|b| - 1];
      AuthCountAppend(a, b[..|b| - 1]);
    } else {
      assert a + b == a;
    }
  }

  /** One `_req_with_auth_fallback` call consumes exactly the network outcomes
      its exchanges used, makes at most three exchanges (one with `stop`), and
      authenticates exactly once when it is not stopped and either no header
      was set or the first response was a 403, and never otherwise. */
  lemma FallbackAuthBound(c: Client, net: Network, pos: nat, req: ApiRequest, stop: bool)
    ensures var s := Fallback(c, net, pos, req, stop);
      && s.next == pos + TotalCalls(s.trace)
      && |s.trace| <= (if stop then 1 else 3)
      && AuthCount(s.trace) == (if !stop && (c.authorization.None? || FirstForbidden(s.trace)) then 1 else 0)
  {
    FallbackConsumes(c, net, pos, req, stop);
    FallbackLength(c, net, pos, req, stop);
    FallbackAuthCount(c, net, pos, req, stop);
  }

  lemma FallbackConsumes(c: Client, net: Network, pos: nat, req: ApiRequest, stop: bool)
    ensures var s := Fallback(c, net, pos, req, stop);
      s.next == pos + TotalCalls(s.trace)
  {
    var first := Issue(c, net, pos, req);
    if stop || first.result.Failure? || !NeedsAuth(first.result.value) {
      NoAuthWithoutFallback(c, net, pos, req, stop);
    } else {
      ReauthenticateConsumes(c, net, pos, req);
    }
  }

  /** The fall-back branch consumes exactly the outcomes of its exchanges. */
  lemma ReauthenticateConsumes(c: Client, net: Network, pos: nat, req: ApiRequest)
    requires var first := Issue(c, net, pos, req);
      first.result.Success? && NeedsAuth(first.result.value)
    ensures var s := Reauthenticate(c, net, Issue(c, net, pos, req), req);
      s.next == pos + TotalCalls(s.trace)
  {
    var first := Issue(c, net, pos, req);
    if |first.trace| == 1 {
      SingleExchange(first.trace[0]);
      assert first.trace == [first.trace[0]];
    }
    var a := Auth(c, net, first.next);
    SingleExchange(a.trace[0]);
    assert a.trace == [a.trace[0]];
    TotalCallsAppend(first.trace, a.trace);
    if a.result.Success? {
      var req' := req.(headers := None);
      var inner := Fallback(a.client, net, a.next, req', true);
      NoAuthWithoutFallback(a.client, net, a.next, req', true);
      TotalCallsAppend(first.trace + a.trace, inner.trace);
    }
  }

  lemma {:induction false} FallbackLength(c: Client, net: Network, pos: nat, req: ApiRequest, stop: bool)
    ensures |Fallback(c, net, pos, req, stop).trace| <= (if stop then 1 else 3)
    decreases !stop
  {
    var first := Issue(c, net, pos, req);
    if !stop && first.result.Success? && NeedsAuth(first.result.value) {
      var a := Auth(c, net, first.next);
      if a.result.Success? {
        FallbackLength(a.client, net, a.next, req.(headers := None), true);
      }
    }
  }

  lemma FallbackAuthCount(c: Client, net: Network, pos: nat, req: ApiRequest, stop: bool)
    ensures var s := Fallback(c, net, pos, req, stop);
      AuthCount(s.trace) == (if !stop && (c.authorization.None? || FirstForbidden(s.trace)) then 1 else 0)
  {
    var first := Issue(c, net, pos, req);
    if stop || first.result.Failure? || !NeedsAuth(first.result.value) {
      NoAuthWithoutFallback(c, net, pos, req, stop);
    } else {
      ReauthenticateAuthCount(c, net, pos, req);
    }
  }

  /** A call that does not fall back is its first exchange alone, or none. */
  lemma NoAuthWithoutFallback(c: Client, net: Network, pos: nat, req: ApiRequest, stop: bool)
    requires var first := Issue(c, net, pos, req);
      stop || first.result.Failure? || !NeedsAuth(first.result.value)
    ensures var s := Fallback(c, net, pos, req, stop);
      && s.trace == Issue(c, net, pos, req).trace
      && s.client == c
      && s.next == pos + TotalCalls(s.trace)
      && AuthCount(s.trace) == 0
      && (!stop ==> c.authorization.Some? && !FirstForbidden(s.trace))
  {
    var first := Issue(c, net, pos, req);
    if |first.trace| == 1 {
      SingleExchange(first.trace[0]);
      assert first.trace == [first.trace[0]];
    }
  }

  /** The fall-back branch authenticates exactly once. */
  lemma ReauthenticateAuthCount(c: Client, net: Network, pos: nat, req: ApiRequest)
    requires var first := Issue(c, net, pos, req);
      first.result.Success? && NeedsAuth(first.result.value)
    ensures var s := Reauthenticate(c, net, Issue(c, net, pos, req), req);
      && AuthCount(s.trace) == 1
      && (c.authorization.None? || FirstForbidden(s.trace))
  {
    var first := Issue(c, net, pos, req);
    var s := Reauthenticate(c, net, first, req);
    if |first.trace| == 1 {
      SingleExchange(first.trace[0]);
      assert first.trace == [first.trace[0]];
    }
    var a := Auth(c, net, first.next);
    SingleExchange(a.trace[0]);
    assert a.trace == [a.trace[0]];
    AuthCountAppend(first.trace, a.trace);
    if a.result.Success? {
      var req' := req.(headers := None);
      var inner := Fallback(a.client, net, a.next, req', true);
      NoAuthWithoutFallback(a.client, net, a.next, req', true);
      AuthCountAppend(first.trace + a.trace, inner.trace);
    }
    assert |first.trace| == 1 ==> s.trace[0] == first.trace[0];
  }

  /** The counts of a trace of one exchange. */
  lemma SingleExchange(x: Exchange)
    ensures TotalCalls([x]) == x.run.calls
    ensures AuthCount([x]) == if x.request.AuthPost? then 1 else 0
  {
    assert [x][..0] == [];
  }

  /** How a `_req_with_auth_fallback` call ends, read off its last exchange:
      a returned response is a 200 that the last request received; `None` is
      returned only after a 403 (or, with `stop`, when no header was set); a
      raise carries the last exchange's connection failure, the refused
      authentication, or the refused request (never a 200 or a 403). */
  lemma {:induction false} FallbackOutcome(c: Client, net: Network, pos: nat, req: ApiRequest, stop: bool)
    ensures var s := Fallback(c, net, pos, req, stop);
      && (s.result.Success? && s.result.value.Some? ==>
            |s.trace| > 0 && s.trace[|s.trace| - 1].request.ApiCall?
            && StatusOf(s.trace[|s.trace| - 1]) == Some(200)
            && s.result.value == Received(s.trace[|s.trace| - 1].run))
      && (|s.trace| > 0 && s.trace[|s.trace| - 1].request.ApiCall? && StatusOf(s.trace[|s.trace| - 1]) == Some(200) ==>
            s.result == Success(Received(s.trace[|s.trace| - 1].run)))
      && (s.result == Success(None) ==>
            if |s.trace| == 0 then stop && c.authorization.None?
            else s.trace[|s.trace| - 1].request.ApiCall? && StatusOf(s.trace[|s.trace| - 1]) == Some(403))
      && (s.result.Failure? ==>
            |s.trace| > 0 &&
            var last := s.trace[|s.trace| - 1];
            if last.run.result.Failure? then s.result.error == last.run.result.error
            else
              && Received(last.run).Some?
              && var r := Received(last.run).value;
              if last.request.AuthPost? then r.status != 200 && s.result.error == AuthFailed(r)
              else r.status != 200 && r.status != 403 && s.result.error == RequestFailed(r))
    decreases !stop
  {
    var first := Issue(c, net, pos, req);
    StoppedCall(c, net, pos, req);
    if !stop && first.result.Success? && NeedsAuth(first.result.value) {
      var a := Auth(c, net, first.next);
      if a.result.Success? {
        var inner := Fallback(a.client, net, a.next, req.(headers := None), true);
        FallbackOutcome(a.client, net, a.next, req.(headers := None), true);
        var t := first.trace + a.trace + inner.trace;
        assert |inner.trace| > 0 ==> t[|t| - 1] == inner.trace[|inner.trace| - 1];
      }
    }
  }

  /** Every request a `_req_with_auth_fallback` call sends is the caller's
      request with the verb its method names; the nested call after `auth`
      drops the caller's `headers`. */
  lemma {:induction false} FallbackForwarding(c: Client, net: Network, pos: nat, req: ApiRequest, stop: bool)
    ensures var s := Fallback(c, net, pos, req, stop);
      forall i :: 0 <= i < |s.trace| && s.trace[i].request.ApiCall? ==>
        Carries(s.trace[i].request, if i == 0 then req else req.(headers := None))
    decreases !stop
  {
    var first := Issue(c, net, pos, req);
    StoppedCall(c, net, pos, req);
    if !stop && first.result.Success? && NeedsAuth(first.result.value) {
      var a := Auth(c, net, first.next);
      if a.result.Success? {
        var req' := req.(headers := None);
        var inner := Fallback(a.client, net, a.next, req', true);
        FallbackForwarding(a.client, net, a.next, req', true);
        var t := first.trace + a.trace + inner.trace;
        forall i | 0 <= i < |t| && t[i].request.ApiCall?
          ensures Carries(t[i].request, if i == 0 then req else req')
        {
          if i >= |first.trace| + 1 {
            assert t[i] == inner.trace[i - |first.trace| - 1];
          }
        }
      }
    }
  }

  /** What each request of a call started on client `c` authenticates with:
      API calls use the client's timeout, `auth` posts the credentials to
      endpoint + "/auth" with its fixed 30 seconds, the first request carries
      the header set before the call, and a request sent after an `auth`
      carries the bearer form of the token that `auth` stored. */
  predicate SendsCredentials(c: Client, s: Step<Option<Response>>) {
    var t := s.trace;
    && (forall i :: 0 <= i < |t| && t[i].request.ApiCall? ==> t[i].request.timeout == c.timeout)
    && (forall i :: 0 <= i < |t| && t[i].request.AuthPost? ==>
          t[i].request == AuthPost(c.endpoint + AuthPath, c.authParams, AuthTimeout))
    && (|t| > 0 && t[0].request.ApiCall? ==> c.authorization == Some(t[0].request.authorization))
    && (|t| >= 2 && t[|t| - 1].request.ApiCall? && AuthCount(t) == 1 ==>
          s.client.token.Some? && t[|t| - 1].request.authorization == "Bearer " + s.client.token.value)
  }

  /** Every `_req_with_auth_fallback` call sends its requests with the
      credentials and timeouts `SendsCredentials` describes; in particular the
      request retried after `auth` uses the token `auth` has just stored. */
  lemma FallbackCredentials(c: Client, net: Network, pos: nat, req: ApiRequest, stop: bool)
    ensures SendsCredentials(c, Fallback(c, net, pos, req, stop))
  {
    var first := Issue(c, net, pos, req);
    if stop || first.result.Failure? || !NeedsAuth(first.result.value) {
      NoAuthWithoutFallback(c, net, pos, req, stop);
      IssueCredentials(c, net, pos, req, Fallback(c, net, pos, req, stop));
    } else {
      ReauthenticateCredentials(c, net, pos, req);
    }
  }

  /** A call that makes only its first exchange sends it with the client's
      header and timeout. */
  lemma IssueCredentials(c: Client, net: Network, pos: nat, req: ApiRequest, s: Step<Option<Response>>)
    requires s.trace == Issue(c, net, pos, req).trace && AuthCount(s.trace) == 0
    ensures SendsCredentials(c, s)
  {
  }

  lemma ReauthenticateCredentials(c: Client, net: Network, pos: nat, req: ApiRequest)
    requires var first := Issue(c, net, pos, req);
      first.result.Success? && NeedsAuth(first.result.value)
    ensures SendsCredentials(c, Reauthenticate(c, net, Issue(c, net, pos, req), req))
  {
    var first := Issue(c, net, pos, req);
    var s := Reauthenticate(c, net, first, req);
    var a := Auth(c, net, first.next);
    var req' := req.(headers := None);
    if a.result.Success? {
      var inner := Fallback(a.client, net, a.next, req', true);
      StoppedCall(a.client, net, a.next, req');
      var t := first.trace + a.trace + inner.trace;
      assert s.trace == t && s.client == a.client;
      forall i | 0 <= i < |t|
        ensures t[i].request.ApiCall? ==> t[i].request.timeout == c.timeout
        ensures t[i].request.AuthPost? ==> t[i].request == AuthPost(c.endpoint + AuthPath, c.authParams, AuthTimeout)
      {
        if i == |first.trace| {
          assert t[i] == a.trace[0];
        } else if i > |first.trace| {
          assert t[i] == inner.trace[i - |first.trace| - 1];
        }
      }
      assert t[|t| - 1] == inner.trace[0];
    } else {
      var t := first.trace + a.trace;
      assert s.trace == t;
      assert t[|t| - 1] == a.trace[0];
    }
  }

  /** A `_req_with_auth_fallback` call changes only the token and the header,
      keeps the header the bearer form of the token, and after an `auth` that
      succeeded establishes it whatever the state before. */
  lemma {:induction false} FallbackKeepsHeaderInvariant(c: Client, net: Network, pos: nat, req: ApiRequest, stop: bool)
    ensures var s := Fallback(c, net, pos, req, stop);
      && s.client.(token := c.token, authorization := c.authorization) == c
      && (HeaderCarriesToken(c) ==> HeaderCarriesToken(s.client))
      && (AuthCount(s.trace) == 1 ==> HeaderCarriesToken(s.client))
    decreases !stop
  {
    FallbackAuthBound(c, net, pos, req, stop);
    var first := Issue(c, net, pos, req);
    StoppedCall(c, net, pos, req);
    if !stop && first.result.Success? && NeedsAuth(first.result.value) {
      var a := Auth(c, net, first.next);
      if a.result.Success? {
        StoppedCall(a.client, net, a.next, req.(headers := None));
      }
    }
  }

  /** The message `auth` raises with, by status: a fixed reason for 406, 402,
      401 and 400, the body otherwise, and ": " only before a non-empty reason. */
  lemma AuthFailureMessages(r: Response)
    ensures AuthFailed(r).resp == Some(r) && AuthFailed(r).cause.None?
    ensures r.status == 406 ==> AuthFailed(r).message == AuthFailedPrefix + ": " + AccountInactive
    ensures r.status == 402 ==> AuthFailed(r).message == AuthFailedPrefix + ": " + SubscriptionRequired
    ensures r.status == 401 ==> AuthFailed(r).message == AuthFailedPrefix + ": " + InvalidCredentials
    ensures r.status == 400 ==> AuthFailed(r).message == AuthFailedPrefix + ": " + InvalidKey
    ensures r.status !in {400, 401, 402, 406} && r.text == "" ==> AuthFailed(r).message == AuthFailedPrefix
    ensures r.status !in {400, 401, 402, 406} && r.text != "" ==> AuthFailed(r).message == AuthFailedPrefix + ": " + r.text
  {
  }

  /** The message a refused request raises with: the body, or "request quota
      exhausted" for an empty 402, and no ": " at all for any other empty body. */
  lemma RequestFailureMessages(r: Response)
    ensures RequestFailed(r).resp == Some(r) && RequestFailed(r).cause.None?
    ensures r.text != "" ==> RequestFailed(r).message == RequestFailedPrefix + ": " + r.text
    ensures r.text == "" && r.status == 402 ==> RequestFailed(r).message == RequestFailedPrefix + ": " + QuotaExhaustedReason
    ensures r.text == "" && r.status != 402 ==> RequestFailed(r).message == RequestFailedPrefix
  {
  }

  /** A client that never authenticated authenticates once, then sends the
      request and returns its 200. */
  lemma FirstRequestAuthenticates(c: Client, net: Network, pos: nat, req: ApiRequest, token: string, body: string)
    requires c.authorization.None?
    requires At(net, pos) == Resp(Response(200, token))
    requires At(net, pos + 1) == Resp(Response(200, body))
    ensures var s := Fallback(c, net, pos, req, false);
      && s.result == Success(Some(Response(200, body)))
      && AuthCount(s.trace) == 1 && |s.trace| == 2 && s.next == pos + 2
      && s.client.token == Some(token) && s.client.authorization == Some("Bearer " + token)
  {
    AcceptedFirstNoRetry(net, pos, Some(c.maxRetries));
    var a := Auth(c, net, pos);
    AcceptedFirstNoRetry(net, pos + 1, Some(c.maxRetries));
    FallbackAuthBound(c, net, pos, req, false);
  }

  /** A 403 on a set header triggers one `auth`; the retried request's 200 is
      returned. */
  lemma ExpiredTokenRefreshedOnce(c: Client, net: Network, pos: nat, req: ApiRequest, stale: string, token: string, body: string)
    requires c.authorization.Some?
    requires At(net, pos) == Resp(Response(403, stale))
    requires At(net, pos + 1) == Resp(Response(200, token))
    requires At(net, pos + 2) == Resp(Response(200, body))
    ensures var s := Fallback(c, net, pos, req, false);
      && s.result == Success(Some(Response(200, body)))
      && AuthCount(s.trace) == 1 && |s.trace| == 3 && s.next == pos + 3
      && s.client.token == Some(token)
  {
    AcceptedFirstNoRetry(net, pos, Some(c.maxRetries));
    AcceptedFirstNoRetry(net, pos + 1, Some(c.maxRetries));
    AcceptedFirstNoRetry(net, pos + 2, Some(c.maxRetries));
    FallbackAuthBound(c, net, pos, req, false);
  }

  /** Two 403s around a successful `auth`: no third attempt and no raise; the
      call returns `None`. */
  lemma ForbiddenTwiceReturnsNone(c: Client, net: Network, pos: nat, req: ApiRequest, stale: string, token: string, again: string)
    requires c.authorization.Some?
    requires At(net, pos) == Resp(Response(403, stale))
    requires At(net, pos + 1) == Resp(Response(200, token))
    requires At(net, pos + 2) == Resp(Response(403, again))
    ensures var s := Fallback(c, net, pos, req, false);
      && s.result == Success(None)
      && AuthCount(s.trace) == 1 && |s.trace| == 3 && s.next == pos + 3
  {
    AcceptedFirstNoRetry(net, pos, Some(c.maxRetries));
    AcceptedFirstNoRetry(net, pos + 1, Some(c.maxRetries));
    AcceptedFirstNoRetry(net, pos + 2, Some(c.maxRetries));
    FallbackAuthBound(c, net, pos, req, false);
  }

  /** An empty 402 raises the quota message without any `auth`. */
  lemma QuotaExhausted(c: Client, net: Network, pos: nat, req: ApiRequest)
    requires c.authorization.Some?
    requires At(net, pos) == Resp(Response(402, ""))
    ensures var s := Fallback(c, net, pos, req, false);
      && s.result.Failure?
      && s.result.error.message == RequestFailedPrefix + ": " + QuotaExhaustedReason
      && AuthCount(s.trace) == 0 && s.client == c
  {
    AcceptedFirstNoRetry(net, pos, Some(c.maxRetries));
    FallbackAuthBound(c, net, pos, req, false);
  }

  /** A 402 from the authentication endpoint raises "paying subscription
      required" and leaves no header behind. */
  lemma AuthPaymentRequired(c: Client, net: Network, pos: nat, req: ApiRequest, text: string)
    requires c.authorization.None?
    requires At(net, pos) == Resp(Response(402, text))
    ensures var s := Fallback(c, net, pos, req, false);
      && s.result.Failure?
      && s.result.error.message == AuthFailedPrefix + ": " + SubscriptionRequired
      && s.client.authorization.None? && s.client.token == c.token && |s.trace| == 1
  {
    AcceptedFirstNoRetry(net, pos, Some(c.maxRetries));
    AuthFailureMessages(Response(402, text));
  }
}
