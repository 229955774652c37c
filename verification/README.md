# p123api request core in Dafny

This project models the request core of the Portfolio123 API client,
`p123api/client.py`. The HTTP session is replaced by a scripted network: a
sequence of outcomes, each either a connection error or a response
(status, body). Each call of the HTTP layer uses up the next outcome. The
model covers:

- `req_with_retry`, the bounded retry loop. It is written twice:
  - `Retry.Attempts` is a recursive reference;
  - `Retry.RetryLoop` is the loop as written, proved equal to it.
  Both record the `time.sleep` schedule instead of sleeping.
- `Client.__init__`, `set_max_request_retries` and `set_timeout`, as pure
  functions over the client state. The state is the endpoint, the retry
  count, the timeout, `_token`, the session's `Authorization` header and the
  credentials `auth` posts. Python's loose `isinstance` checks are kept: a
  `bool` passes the integer checks.
- `Client.auth` and `Client._req_with_auth_fallback`.
  - Each operation returns a `Step`: what it returned or raised, the client
    afterwards, the next unused network position, and the trace of the
    `req_with_retry` calls it made.
  - The fallback is split into `Issue`, the first request, sent only when a
    header is set; `Reauthenticate`, which calls `auth` and then itself with
    `stop=True`; and `Judge`, where a 200 is returned and any other status
    raised.
- The query strings of `stock_factor_upload` and `data_series_upload`, with
  a decoder as the partner of the builder.
- The node columns `rank_ranks(..., to_pandas=True)` adds to its table,
  proved equal to a count-based definition of each column's name and proved
  never to reuse a name.

## Behaviour modelled as the code has it

- **Two 403s in a row.** A second 403 from the nested `stop=True` call is
  not raised. Control falls off the end of the function and the call
  returns `None` (p123api/client.py:168-169). The same happens when the nested call
  finds no header (`ApiClient.ForbiddenTwiceReturnsNone`).
- **Headers are dropped.** The nested call does not pass the caller's
  `headers` on.
- **The token survives a failed `auth`.** It clears the header but leaves
  `_token` as it was.
- **Credentials can be overridden.** `auth_extra` is spread after
  `apiId`/`apiKey`, so its keys override the credentials.
- **Exceptions propagate.** An `auth` that raises inside the fallback ends
  the whole call with that exception.
- **`auth` ignores the configured timeout.** It always posts with a
  30-second timeout.

## Model

| member | source | states |
|---|---|---|
| Retry.ReqWithRetry | p123api/client.py:723-739 | With no positive ceiling, no call is made and `None` is returned. Otherwise (ceiling 5 for `None`) the run obeys the retry policy: at most the ceiling of calls; a `2*k` sleep before attempt `k > 0`; only errors and 5xx passed over; an early stop only on a status below 500; a raise exactly when the last allowed attempt is a connection error; else the last response. |
| Retry.Attempts | p123api/client.py:728-738 | The recursive reference for the loop from a given attempt on. `AttemptsObeyPolicy` proves it obeys the retry policy, and `RetryLoop` is proved equal to it. |
| Retry.AttemptsObeyPolicy | p123api/client.py:728-738 | Every run of the loop from any attempt on obeys that policy, proved by induction over the attempts left. |
| Retry.RetryLoop | p123api/client.py:723-739 | The imperative loop, with its `break`, its raise inside the `except` and the final `return resp`, computes exactly `ReqWithRetry`: result, number of calls and sleep schedule. |
| Retry.BackoffTotal | p123api/client.py:729-730 | The sleeps before attempts 1 .. n-1 add up to n*(n-1) seconds. |
| Retry.AllConnectionErrorsRaise | p123api/client.py:728-739 | A network that only fails to connect gets exactly `max_tries` calls, 2*(1+...+(max_tries-1)) seconds of sleep and the "Cannot connect to API" error carrying the last fault. |
| Retry.ServerErrorsReturnLast | p123api/client.py:728-739 | If every attempt gets a 5xx, all attempts are made and the last response is returned, not raised. |
| Retry.AcceptedFirstNoRetry | p123api/client.py:731-734 | A first response below 500, a 4xx included, is returned after one call and no sleep. |
| ApiClient.NewClient | p123api/client.py:48-62 | Succeeds exactly when `api_id` and `api_key` are non-empty strings; `api_id` is checked first, each with its own message. The new client has retries 5, timeout 300, no token and no header. The auth body has the keys `apiId` and `apiKey` plus those of `auth_extra`, whose values win. |
| ApiClient.SetMaxRequestRetries | p123api/client.py:74-77 | Accepts exactly the ints (bools included) from 1 to 10 and stores that value, changing nothing else; anything else raises its message and leaves the client unchanged. |
| ApiClient.SetTimeout | p123api/client.py:79-82 | Accepts exactly the ints (bools included) of at least 1 and stores that value, changing nothing else; anything else raises its message and leaves the client unchanged. |
| ApiClient.Auth | p123api/client.py:87-119 | Makes exactly one retried POST of the credentials to endpoint + "/auth" with timeout 30. It succeeds exactly when that ends in a 200; then it stores the body as the token and `Bearer <body>` as the header. Otherwise the header is gone and the token unchanged, and it raises the retry error or the authentication error for the response. Nothing else in the client changes. |
| ApiClient.AuthFailureMessages | p123api/client.py:106-119 | An authentication failure carries the response. Its message gives the fixed reason for 406, 402, 401 and 400 and the body for other statuses. ": " comes before the reason only when the reason is non-empty. |
| ApiClient.Fallback | p123api/client.py:121-187 | The state machine itself. Its behaviour is stated by `StoppedCall`, `FallbackAuthBound`, `FallbackOutcome`, `FallbackForwarding`, `FallbackCredentials` and `FallbackKeepsHeaderInvariant`. |
| ApiClient.Reauthenticate | p123api/client.py:169-178 | The fall-back branch: `auth`, then the nested `stop=True` call without `headers`. `ReauthenticateAuthCount` shows it authenticates exactly once; `FallbackOutcome` and `FallbackCredentials` cover its result and the token the retried request carries. |
| ApiClient.AuthReason | p123api/client.py:107-116 | The reason chosen by status. `AuthFailureMessages` states the fixed reasons for 406, 402, 401 and 400, and the body otherwise. |
| ApiClient.RequestDetail | p123api/client.py:182-184 | The body, or "request quota exhausted" for an empty 402. `RequestFailureMessages` states both cases and the message built from them. |
| ApiClient.Issue | p123api/client.py:143-167 | Without a header, nothing is sent and the result is `None`. With one, exactly one retried request is sent, with its outcome and calls recorded. |
| ApiClient.Judge | p123api/client.py:179-187 | A 200 is returned as it is; any other status raises the request failure for that response; the client, position and trace are untouched. |
| ApiClient.RequestFailureMessages | p123api/client.py:181-187 | A refused request's message carries the body. An empty 402 carries "request quota exhausted" instead. Any other empty body gets no ": " at all. |
| ApiClient.StoppedCall | p123api/client.py:143-169 | The `stop=True` call never authenticates and never changes the client. It makes at most one exchange. Its result: a retry error is raised; a 403 or no header gives `None`; a 200 is returned; any other status raises. |
| ApiClient.FallbackAuthBound | p123api/client.py:143-178 | One call uses exactly the network outcomes its exchanges used. It makes at most 3 exchanges (1 when stopped). It authenticates exactly once when not stopped and the header was missing or the first response a 403, and never otherwise. |
| ApiClient.FallbackAuthCount | p123api/client.py:168-178 | `auth` runs exactly once when not stopped and the header was missing or the first response a 403, and never otherwise. |
| ApiClient.FallbackOutcome | p123api/client.py:168-187 | A returned response is the last exchange's 200, and a last exchange ending in 200 is always returned. `None` only follows a final 403, or a stopped call with no header. A raise carries either the last exchange's connection error, the refused authentication, or the refused request, whose status is neither 200 nor 403. |
| ApiClient.FallbackForwarding | p123api/client.py:145-178 | Every request sent uses the verb the method names (POST with JSON body and data, GET/DELETE with neither), the caller's URL, and the caller's headers on the first request only. |
| ApiClient.FallbackCredentials | p123api/client.py:94-178 | Every API call is sent with the client's timeout, and every `auth` post goes to endpoint + "/auth" with the credentials and 30 seconds. The first request carries the header set before the call. The request retried after `auth` carries "Bearer " plus the token `auth` has just stored. |
| ApiClient.FallbackKeepsHeaderInvariant | p123api/client.py:168-178 | A call changes only the token and the header. It keeps "the header is the bearer form of the token", and establishes it after an `auth`. |
| ApiClient.FirstRequestAuthenticates | p123api/client.py:143-180 | A client with no header authenticates once and then returns the request's 200, having stored the token. |
| ApiClient.ExpiredTokenRefreshedOnce | p123api/client.py:143-180 | 403, then an `auth` 200, then a request 200: one `auth`, three exchanges, the 200 returned. |
| ApiClient.ForbiddenTwiceReturnsNone | p123api/client.py:168-178 | 403, `auth` 200, 403 again: one `auth`, no third request, and `None` returned without a raise. |
| ApiClient.QuotaExhausted | p123api/client.py:181-187 | An empty 402 raises "API request failed: request quota exhausted" with no `auth` and an unchanged client. |
| ApiClient.AuthPaymentRequired | p123api/client.py:107-119 | A 402 from the auth endpoint raises "API authentication failed: paying subscription required" and leaves no header. |
| Http.WithDetail | p123api/client.py:117-119 | The message is the prefix alone exactly when the detail is empty, and otherwise the prefix, ": " and the detail. |
| Upload.QueryString | p123api/client.py:567 | Empty exactly when no option is given; otherwise it starts with "?". |
| Upload.StockFactorQuery | p123api/client.py:547-567 | The stock factor query is empty exactly when every option is left out, and otherwise starts with "?". |
| Upload.DataSeriesQuery | p123api/client.py:623-643 | The data series query is empty exactly when every option is left out, and otherwise starts with "?". |
| Upload.Given | p123api/client.py:548-566 | The `get_params` list. Its length is at most the number of options; `GivenExactly` states its exact contents and order, and `SlotsRoundTrip` reads it back. |
| Upload.Flag | p123api/client.py:557-566 | A boolean option as sent: "continue"/"stop" for the `ignore_*` options, and "True"/"False" for `headerRow` (lines 641-642). `DecodeFlagRender` shows the rendering is decoded back to the same option. |
| Upload.GivenExactly | p123api/client.py:548-566 | The parameter list holds one `key=value` per given option, in the fixed slot order, and nothing else. |
| Upload.SlotsRoundTrip | p123api/client.py:547-567 | If keys are distinct and free of "=" and "&", and values free of "&", splitting the query string on "&" and "=" gives every key back its slot's value, `None` for a missing option. |
| Upload.StockFactorRoundTrip | p123api/client.py:547-567 | Decoding the stock factor query string gives back the exact options it was built from. That includes `ignore_errors`/`ignore_duplicates` as "continue"/"stop". |
| Upload.DataSeriesRoundTrip | p123api/client.py:623-643 | Decoding the data series query string gives back the exact options, including `headerRow` printed as "True"/"False". |
| Ranks.NodeRanks | p123api/client.py:473-474 | Gathers node j's rank of each stock, one per stock in order; fails exactly when some stock's row has no rank for node j. |
| Ranks.NodeColumns | p123api/client.py:463-474 | Succeeds exactly when every index read exists. Then it yields one column per node except node 0. Column j is named "<name> (<weight>%)" plus " #n" when n earlier nodes share that base name, and holds one rank per stock. No two columns share a name. |
| Ranks.TracksStep | p123api/client.py:466-471 | One step of the repeat map: the name it produces is the count-based column name, and the updated map still counts every base name seen. |
| Ranks.ColumnNamesDistinct | p123api/client.py:463-472 | Two different nodes never get the same column name: a repeat's " #n" differs from the first occurrence and from every other repeat. |

## Left out

- Real HTTP through `requests.Session` (TLS verification, transport
  timeouts, the session object) is replaced by the scripted network. Each
  request records its timeout. `verify_requests` is only stored on the
  client and is not recorded on the requests.
- Python values are narrowed:
  - `set_timeout(True)` stores `True` in the source, and the model stores 1.
    A bool timeout is then refused by `requests` with an error that the retry
    loop does not catch; the model does not show that.
  - `auth_extra` values are modelled as strings, although any JSON value is
    allowed.
  - `verify_requests` is modelled as a bool, although `requests` also
    accepts a CA-bundle path.
- `time.sleep` is recorded as a schedule of seconds instead of being
  performed.
- Exceptions of `requests` other than `ConnectionError` (a read timeout, an
  invalid URL) are not modelled. In the source they propagate unchanged
  out of the retry loop.
- Opening the upload file, the upload body and the endpoint URLs
  (`Template.substitute`, path concatenation) are not modelled. The request
  body, data and headers are kept as opaque strings.
- `.json()` decoding, all pandas reshaping other than the node-column
  naming, and the `additionalData` columns of `rank_ranks` are not
  modelled.
- The other endpoint methods are not modelled. They are thin wrappers
  around `_req_with_auth_fallback`.
- `__enter__`/`__exit__`/`close` and the accessors `get_token`,
  `get_resp` and `get_cause` are not modelled. `__enter__` returns `None`
  in the source.
- The `name` argument of `_req_with_auth_fallback` is unused by the source
  and kept only as a field.
- Session headers other than `Authorization` are not modelled. `auth`
  clears them all with `headers.clear()`.
- Thread safety of the shared session is not modelled. The model is
  single-caller.
- Ranks.NodeColumns: the `nodes is None` check and the key deletions are
  not modelled. Weights are taken as already rendered text. The
  `p123Uids` list is reduced to its length `uidCount`, since the loop uses
  only its positions.
- Upload.StockFactorRoundTrip: holds only when no string option contains
  "&". The source does not escape option values, so such a value would
  split into extra parameters.
- Upload.DataSeriesRoundTrip: holds only when no string option contains
  "&", for the same reason.
- Retry.ReqWithRetry: the ceiling is any integer, as in the source. The
  client itself only passes 1 to 10, which is why `Auth` and `Issue` always
  have a response or an error.
- setup.py holds packaging metadata only and is not modelled.
