/**
  The authorization gate: a mutating request under the `/api` prefix must carry
  the fixed bearer token in its Authorization header.
 */
module Auth {
  import opened Options

  const ApiPrefix := "/api"
  const Token := "Bearer secrettoken"

  /** The gate either lets the request continue or answers 401 itself. */
  datatype Decision = Next | Unauthorized

  /**
    The gate's decision for a request path, verb and optional Authorization
    header value. The prefix test is textual, so `/apidocs` is gated too.
   */
  function Gate(path: string, verb: string, authorization: Option<string>): (d: Decision)
    ensures d == Unauthorized <==>
      ApiPrefix <= path && verb != "GET" && authorization != Some(Token)
  {
    if ApiPrefix <= path && verb != "GET"
       && (!Truthy(authorization) || authorization.value != Token)
    then Unauthorized
    else Next
  }

  /** A path merely beginning with the letters `/api` is gated, not just `/api/...`. */
  lemma PrefixIsTextual()
    ensures Gate("/apidocs", "POST", None) == Unauthorized
    ensures Gate("/ap", "POST", None) == Next
  {
  }
}
