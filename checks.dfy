/** The data model of the endpoint checker: one expected request/response
    pair per `Check`, the response observed for it, and the diagnostics the
    checker reports. */
module Checks {

  datatype Option<+T> = None | Some(value: T)

  datatype HttpMethod = GET | POST

  /** The three body checkers a check may attach, by name. */
  datatype BodyCheck = PostHttpCheck | DummyVerifyCheck | DisallowedVerifyCheck

  /** A decoded JSON object whose fields are strings. */
  type Json = map<string, string>

  /** One expected behaviour: request method, expected status code, target
      URL, the expected redirect target (the `redir` key, absent when no
      redirect target is checked), the POST arguments and the body checker. */
  datatype Check = Check(
    meth: HttpMethod,
    rc: int,
    url: string,
    redir: Option<string>,
    postargs: Option<Json>,
    check: Option<BodyCheck>)

  /** What the server answered: the status code, the response headers (keyed
      by lower-case name), the body decoded as a JSON object when it decodes
      as one, and the raw body text. */
  datatype Response = Response(
    status: int,
    headers: map<string, string>,
    json: Option<Json>,
    text: string)

  /** One `ERROR:` line of the report, by kind, with the values it shows. */
  datatype Diagnostic =
    | FailedToGet(page: string)                   // discovery: status was not 200
    | SourceNotFound(tag: string, page: string)   // discovery: pattern absent
    | WrongSource(tag: string)                    // discovery: wrong file name
    | WrongResponse(got: string, expected: string)
    | NonConformingJson(text: string)
    | WrongRedirection(gotTarget: Option<string>, expectedTarget: string)
    | WrongResponseCode(gotCode: int, expectedCode: int)

  /** Placeholders in the check table for the versioned static asset paths. */
  const StaticJsToken := "__STATIC_JS__"
  const StaticCssToken := "__STATIC_CSS__"

  /** Staging domains written in the check table, and the production domains
      that replace them. */
  const StagingLogin := "anosrep.org"
  const ProductionLogin := "persona.org"
  const StagingPrimary := "diresworb.org"
  const ProductionPrimary := "browserid.org"
}
