/** Worked examples of the comparison: a redirect check and a verifier
    check, each against a conforming and a non-conforming answer. */
module Scenarios {
  import opened Checks
  import opened CheckTable
  import opened BodyCheckers
  import opened Engine

  /** A GET expected to redirect permanently to the login host. */
  const RedirectCheck := Check(GET, 301, "http://example.org/", Some("https://login.example.org/"), None, None)

  /** A POST to the verifier expected to be refused for lack of
      certificates. */
  const VerifierCheck := Check(POST, 200, "https://example.org/verify", None, Some(VerifyArgs), Some(DummyVerifyCheck))

  function Redirected(location: string): Response {
    Response(301, map["location" := location], None, "")
  }

  function Answered(json: Json): Response {
    Response(200, map[], Some(json), "")
  }

  /** The expected redirect target: nothing is reported. */
  lemma RedirectMatches()
    ensures CheckPersona(RedirectCheck, Redirected("https://login.example.org/")).errors == []
  {
  }

  /** Another target: one redirect line naming both. */
  lemma RedirectDiffers()
    ensures CheckPersona(RedirectCheck, Redirected("https://wrong.example.org/")).errors ==
      [WrongRedirection(Some("https://wrong.example.org/"), "https://login.example.org/")]
  {
  }

  /** A redirect without a `location` header: the target reads as `None`
      and one redirect line shows it; nothing raises. */
  lemma RedirectWithoutLocation()
    ensures CheckPersona(RedirectCheck, Response(301, map[], None, "")).errors ==
      [WrongRedirection(None, "https://login.example.org/")]
  {
  }

  /** The conforming refusal: nothing is reported. */
  lemma VerifierRefuses()
    ensures CheckPersona(VerifierCheck, Answered(map["status" := "failure", "reason" := "no certificates provided"])).errors == []
  {
  }

  /** Another reason: one line, which shows the `status` value where the
      `reason` was meant. */
  lemma VerifierWrongReason()
    ensures CheckPersona(VerifierCheck, Answered(map["status" := "failure", "reason" := "other"])).errors ==
      [WrongResponse("failure", "no certificates provided")]
  {
  }

  /** A body without `reason` and with the wrong `status`: both lines. */
  lemma VerifierWrongStatusNoReason()
    ensures CheckPersona(VerifierCheck, Answered(map["status" := "okay"])).errors ==
      [WrongResponse("okay", "failure"), NonConformingJson("")]
  {
  }
}
