/** The body checkers a check may attach: each inspects the decoded JSON
    body of the response and yields the error lines it prints. */
module BodyCheckers {
  import opened Checks

  /** The `error` value the verifier answers a plain-HTTP POST with. */
  const HttpsRequired := "Please use HTTPS rather than HTTP"
  /** The body shown as expected when that answer is missing. */
  const HttpsRequiredBody := "{\"error\": \"Please use HTTPS rather than HTTP\"}"
  /** The `status` of a refused assertion. */
  const Failure := "failure"
  /** The `reason` given for an assertion without certificates. */
  const NoCertificates := "no certificates provided"

  /** The body decoded to an object whose `key` is `value`. */
  predicate HasField(resp: Response, key: string, value: string) {
    resp.json.Some? && key in resp.json.value && resp.json.value[key] == value
  }

  /** The body decoded to an object that has `key`. */
  predicate HasKey(resp: Response, key: string) {
    resp.json.Some? && key in resp.json.value
  }

  /** `post_http`: the body must carry the HTTPS-required error. The body
      must have decoded: an undecodable body makes the script raise. */
  function PostHttp(resp: Response): (r: seq<Diagnostic>)
    requires resp.json.Some?
    ensures r == [] <==> HasField(resp, "error", HttpsRequired)
    ensures r != [] ==> r == [WrongResponse(resp.text, HttpsRequiredBody)]
  {
    var json := resp.json.value;
    if "error" in json && json["error"] == HttpsRequired then []
    else [WrongResponse(resp.text, HttpsRequiredBody)]
  }

  /** `dummy_verify`: `status` must be `failure` and `reason` must be
      `no certificates provided`. The two are tested one after the other; a
      missing key or an undecodable body ends the test with a
      non-conforming line. The line for a wrong `reason` shows the `status`
      value, as the script prints it. */
  function DummyVerify(resp: Response): (r: seq<Diagnostic>)
    ensures r == [] <==> HasField(resp, "status", Failure) && HasField(resp, "reason", NoCertificates)
    ensures |r| <= 2
    ensures !HasKey(resp, "status") ==> r == [NonConformingJson(resp.text)]
    ensures HasKey(resp, "status") ==>
      && (r != [] && r[0] == WrongResponse(resp.json.value["status"], Failure) <==> !HasField(resp, "status", Failure))
      && (!HasKey(resp, "reason") <==> r != [] && r[|r| - 1] == NonConformingJson(resp.text))
      && (HasKey(resp, "reason") && !HasField(resp, "reason", NoCertificates) <==>
            r != [] && r[|r| - 1] == WrongResponse(resp.json.value["status"], NoCertificates))
    ensures HasKey(resp, "status") ==>
      |r| == (if HasField(resp, "status", Failure) then 0 else 1) + (if HasField(resp, "reason", NoCertificates) then 0 else 1)
  {
    if !HasKey(resp, "status") then [NonConformingJson(resp.text)]
    else
      var json := resp.json.value;
      var statusLine := if json["status"] != Failure then [WrongResponse(json["status"], Failure)] else [];
      if "reason" !in json then statusLine + [NonConformingJson(resp.text)]
      else if json["reason"] != NoCertificates then statusLine + [WrongResponse(json["status"], NoCertificates)]
      else statusLine
  }

  /** `disallowed_verify`: only `status` must be `failure`; a missing key or
      an undecodable body gives a non-conforming line. */
  function DisallowedVerify(resp: Response): (r: seq<Diagnostic>)
    ensures r == [] <==> HasField(resp, "status", Failure)
    ensures |r| <= 1
    ensures !HasKey(resp, "status") ==> r == [NonConformingJson(resp.text)]
    ensures HasKey(resp, "status") && r != [] ==> r == [WrongResponse(resp.json.value["status"], Failure)]
  {
    if !HasKey(resp, "status") then [NonConformingJson(resp.text)]
    else if resp.json.value["status"] != Failure then [WrongResponse(resp.json.value["status"], Failure)]
    else []
  }

  /** The body checker `b` applied to `resp`. */
  function RunBodyCheck(b: BodyCheck, resp: Response): (r: seq<Diagnostic>)
    requires b.PostHttpCheck? ==> resp.json.Some?
    ensures |r| <= 2
    ensures forall k :: 0 <= k < |r| ==> r[k].WrongResponse? || r[k].NonConformingJson?
  {
    match b
    case PostHttpCheck => PostHttp(resp)
    case DummyVerifyCheck => DummyVerify(resp)
    case DisallowedVerifyCheck => DisallowedVerify(resp)
  }

  /** `disallowed_verify` reports what `dummy_verify` reports first: its
      lines are a prefix of the stricter checker's. */
  lemma DisallowedIsPrefixOfDummy(resp: Response)
    ensures DisallowedVerify(resp) <= DummyVerify(resp)
  {
  }

  /** A body `dummy_verify` accepts is accepted by `disallowed_verify`, and
      the converse fails exactly on the `reason` field. */
  lemma DummyStricterThanDisallowed(resp: Response)
    ensures DummyVerify(resp) == [] ==> DisallowedVerify(resp) == []
    ensures DisallowedVerify(resp) == [] && DummyVerify(resp) != [] ==> !HasField(resp, "reason", NoCertificates)
  {
  }

  /** Each body checker prints at most one non-conforming line, and only as
      its last line. */
  lemma NonConformingOnlyLast(b: BodyCheck, resp: Response, k: int)
    requires b.PostHttpCheck? ==> resp.json.Some?
    requires 0 <= k < |RunBodyCheck(b, resp)| - 1
    ensures !RunBodyCheck(b, resp)[k].NonConformingJson?
  {
  }
}
