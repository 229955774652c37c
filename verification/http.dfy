/** The vocabulary shared by the request core: optional values, results,
    HTTP responses, the scripted network that replaces `requests`, and the
    `ClientException` that every failure is raised as. */
module Http {

  datatype Option<+T> = None | Some(value: T)

  /** A call either returns a value or raises; `Failure` is the raise. */
  datatype Result<+T, +E> = Success(value: T) | Failure(error: E)

  /** The two parts of a `requests.Response` the core reads. */
  datatype Response = Response(status: int, text: string)

  /** What one call of the HTTP layer does: raise `requests.ConnectionError`
      (with a description of the fault) or answer with a response. */
  datatype Outcome = ConnErr(cause: string) | Resp(response: Response)

  /** A scripted network: the k-th call of the HTTP layer, counted over the
      whole life of a client, produces the k-th outcome. */
  type Network = seq<Outcome>

  /** Outcome of call number `i`; once the script is used up the network is
      unreachable. */
  function At(net: Network, i: nat): (o: Outcome)
    ensures i < |net| ==> o == net[i]
    ensures i >= |net| ==> o.ConnErr?
  {
    if i < |net| then net[i] else ConnErr("network unreachable")
  }

  /** `ClientException(message, resp=..., exception=...)`. */
  datatype ClientException = ClientException(message: string, resp: Option<Response>, cause: Option<string>)

  /** The message pattern used by every raise in the core: a fixed prefix, then
      ": " and a detail only when the detail is non-empty. */
  function WithDetail(prefix: string, detail: string): (m: string)
    ensures |m| >= |prefix| && m[..|prefix|] == prefix
    ensures m == prefix <==> detail == ""
    ensures detail != "" ==> m[|prefix|..] == ": " + detail
  {
    if detail == "" then prefix else prefix + ": " + detail
  }
}
