/** `validate_request_method` (services/api/data2req.py): the method token is
    lower-cased and accepted only when it is one of seven HTTP methods. */
module RequestMethod {
  import opened Common

  const Methods: set<string> := {"delete", "get", "head", "options", "patch", "post", "put"}

  /** The lower-cased method, or `InvalidMethod` carrying the lower-cased
      token (the source's message formats the already lowered value). */
  function ValidateRequestMethod(token: string): (r: Result<string, Error>)
    ensures r.Ok? <==> Lower(token) in Methods
    ensures r.Ok? ==> r.value == Lower(token)
    ensures r.Err? ==> r.error == InvalidMethod(Lower(token))
  {
    var m := Lower(token);
    if m !in Methods then Err(InvalidMethod(m)) else Ok(m)
  }

  /** Every accepted method is one of the seven, and validating it again
      accepts it unchanged. */
  lemma {:induction false} ValidateIdempotent(token: string)
    requires ValidateRequestMethod(token).Ok?
    ensures ValidateRequestMethod(token).value in Methods
    ensures ValidateRequestMethod(ValidateRequestMethod(token).value) == ValidateRequestMethod(token)
  {
    LowerIdempotent(token);
  }

  /** Tokens equal up to case are validated alike. */
  lemma ValidateIgnoresCase(a: string, b: string)
    requires Lower(a) == Lower(b)
    ensures ValidateRequestMethod(a) == ValidateRequestMethod(b)
  {
  }

  lemma ValidateExamples()
    ensures ValidateRequestMethod("GET") == Ok("get")
    ensures ValidateRequestMethod("Get") == Ok("get")
    ensures ValidateRequestMethod("fetch") == Err(InvalidMethod("fetch"))
  {
    assert Lower("GET") == "get";
    assert Lower("Get") == "get";
    assert Lower("fetch") == "fetch";
  }
}
