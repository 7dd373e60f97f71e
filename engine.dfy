/** The comparison of each observed response with its check, and the run of
    the whole script: discover the asset paths, rewrite the table, compare
    every check in table order. Requests are not issued: the response each
    request received is an input. */
module Engine {
  import opened Text
  import opened Checks
  import opened CheckTable
  import opened Rewriter
  import opened Discovery
  import opened BodyCheckers

  /** What is reported for one check: the summary line (method, URL,
      observed status, observed redirect target) and its error lines. */
  datatype Report = Report(meth: HttpMethod, url: string, status: int, location: Option<string>, errors: seq<Diagnostic>)

  /** A response the script can compare without raising: a body checked by
      `post_http` decoded. */
  predicate Comparable(c: Check, resp: Response) {
    c.check == Some(PostHttpCheck) ==> resp.json.Some?
  }

  /** The redirect target: the `location` header of a 301 or 302, and the
      empty string for any other status. A 301 or 302 without the header
      reads as `None`, which the script shows as such and which matches no
      expected target. */
  function ObservedLocation(resp: Response): (r: Option<string>)
    ensures (resp.status == 301 || resp.status == 302) && "location" in resp.headers ==> r == Some(resp.headers["location"])
    ensures (resp.status == 301 || resp.status == 302) && "location" !in resp.headers ==> r == None
    ensures resp.status != 301 && resp.status != 302 ==> r == Some("")
  {
    if resp.status == 301 || resp.status == 302 then
      if "location" in resp.headers then Some(resp.headers["location"]) else None
    else Some("")
  }

  /** The redirect line: reported when an expected target is given, is not
      empty, and differs from the observed one. */
  function RedirectLines(expected: Option<string>, location: Option<string>): (r: seq<Diagnostic>)
    ensures r != [] <==> expected.Some? && expected.value != "" && location != Some(expected.value)
    ensures r != [] ==> r == [WrongRedirection(location, expected.value)]
  {
    if expected.Some? && expected.value != "" && location != Some(expected.value) then
      [WrongRedirection(location, expected.value)]
    else []
  }

  /** The status line: reported whenever the status differs from the
      expected one. */
  function StatusLines(got: int, expected: int): (r: seq<Diagnostic>)
    ensures r != [] <==> got != expected
    ensures r != [] ==> r == [WrongResponseCode(got, expected)]
  {
    if got != expected then [WrongResponseCode(got, expected)] else []
  }

  /** The lines of the attached body checker, if any. */
  function BodyLines(c: Check, resp: Response): (r: seq<Diagnostic>)
    requires Comparable(c, resp)
    ensures c.check.None? ==> r == []
    ensures |r| <= 2
    ensures forall k :: 0 <= k < |r| ==> r[k].WrongResponse? || r[k].NonConformingJson?
  {
    if c.check.None? then [] else RunBodyCheck(c.check.value, resp)
  }

  /** `check_persona` after the request: the summary and error lines for one
      check, in the order redirect, status, body; the body checker runs
      whatever the first two found. */
  function CheckPersona(c: Check, resp: Response): Report
    requires Comparable(c, resp)
  {
    var location := ObservedLocation(resp);
    Report(c.meth, c.url, resp.status, location,
           RedirectLines(c.redir, location) + StatusLines(resp.status, c.rc) + BodyLines(c, resp))
  }

  /** A redirect error is reported exactly when the check expects a
      non-empty target that differs from the observed one. */
  lemma RedirectErrorIff(c: Check, resp: Response)
    requires Comparable(c, resp)
    ensures var r := CheckPersona(c, resp);
      (exists k | 0 <= k < |r.errors| :: r.errors[k].WrongRedirection?) <==>
        c.redir.Some? && c.redir.value != "" && Some(c.redir.value) != ObservedLocation(resp)
  {
    var r := CheckPersona(c, resp);
    var red := RedirectLines(c.redir, r.location);
    var st := StatusLines(resp.status, c.rc);
    var body := BodyLines(c, resp);
    forall k | |red| <= k < |r.errors| ensures !r.errors[k].WrongRedirection? {
      if k < |red| + |st| {
        assert r.errors[k] == st[k - |red|];
      } else {
        assert r.errors[k] == body[k - |red| - |st|];
      }
    }
    if red != [] {
      assert r.errors[0] == red[0];
    }
  }

  /** A status error is reported exactly when the observed status differs
      from the expected one. */
  lemma StatusErrorIff(c: Check, resp: Response)
    requires Comparable(c, resp)
    ensures var r := CheckPersona(c, resp);
      (exists k | 0 <= k < |r.errors| :: r.errors[k].WrongResponseCode?) <==> resp.status != c.rc
  {
    var r := CheckPersona(c, resp);
    var red := RedirectLines(c.redir, r.location);
    var st := StatusLines(resp.status, c.rc);
    var body := BodyLines(c, resp);
    forall k | 0 <= k < |r.errors| && !(|red| <= k < |red| + |st|) ensures !r.errors[k].WrongResponseCode? {
      if k < |red| {
        assert r.errors[k] == red[k];
      } else {
        assert r.errors[k] == body[k - |red| - |st|];
      }
    }
    if st != [] {
      assert r.errors[|red|] == st[0];
    }
  }

  /** The body checker's lines close the report whatever the redirect and
      status comparisons found: a wrong status never hides a body error. */
  lemma BodyLinesAlwaysReported(c: Check, resp: Response, resp': Response)
    requires Comparable(c, resp) && Comparable(c, resp')
    requires resp'.json == resp.json && resp'.text == resp.text
    ensures var r := CheckPersona(c, resp');
      |BodyLines(c, resp)| <= |r.errors| && r.errors[|r.errors| - |BodyLines(c, resp)|..] == BodyLines(c, resp)
  {
    var r := CheckPersona(c, resp');
    var body := BodyLines(c, resp);
    assert BodyLines(c, resp') == body;
    var head := RedirectLines(c.redir, r.location) + StatusLines(resp'.status, c.rc);
    assert r.errors == head + body;
  }

  /** The error lines of one check, in full: at most one redirect line, which
      comes first; at most one status line, which comes next; then exactly
      the body checker's lines. */
  lemma ReportLines(c: Check, resp: Response)
    requires Comparable(c, resp)
    ensures var r := CheckPersona(c, resp);
      var nr := if c.redir.Some? && c.redir.value != "" && Some(c.redir.value) != r.location then 1 else 0;
      var ns := if resp.status != c.rc then 1 else 0;
      && r.meth == c.meth && r.url == c.url && r.status == resp.status && r.location == ObservedLocation(resp)
      && |r.errors| == nr + ns + |BodyLines(c, resp)|
      && (nr == 1 ==> r.errors[0] == WrongRedirection(r.location, c.redir.value))
      && (ns == 1 ==> r.errors[nr] == WrongResponseCode(resp.status, c.rc))
      && r.errors[nr + ns..] == BodyLines(c, resp)
      && (forall k :: 0 <= k < |r.errors| && r.errors[k].WrongRedirection? ==> k == 0 && nr == 1)
      && (forall k :: 0 <= k < |r.errors| && r.errors[k].WrongResponseCode? ==> k == nr && ns == 1)
  {
    var r := CheckPersona(c, resp);
    var red := RedirectLines(c.redir, r.location);
    var st := StatusLines(resp.status, c.rc);
    var body := BodyLines(c, resp);
    assert r.errors == red + st + body;
    assert (red + st + body)[|red| + |st|..] == body;
    forall k | 0 <= k < |r.errors|
      ensures r.errors[k].WrongRedirection? ==> k == 0 && red != []
      ensures r.errors[k].WrongResponseCode? ==> k == |red| && st != []
    {
      if k < |red| {
        assert r.errors[k] == red[k];
      } else if k < |red| + |st| {
        assert r.errors[k] == st[k - |red|];
      } else {
        assert r.errors[k] == body[k - |red| - |st|];
      }
    }
  }

  /** Every check is compared with the response its request received, in
      table order, and none stops the run. */
  method RunChecks(checks: seq<Check>, responses: seq<Response>) returns (reports: seq<Report>)
    requires |responses| == |checks|
    requires forall i :: 0 <= i < |checks| ==> Comparable(checks[i], responses[i])
    ensures |reports| == |checks|
    ensures forall i :: 0 <= i < |checks| ==> reports[i] == CheckPersona(checks[i], responses[i])
  {
    reports := [];
    var i := 0;
    while i < |checks|
      invariant 0 <= i <= |checks|
      invariant |reports| == i
      invariant forall k :: 0 <= k < i ==> reports[k] == CheckPersona(checks[k], responses[k])
    {
      reports := reports + [CheckPersona(checks[i], responses[i])];
      i := i + 1;
    }
  }

  /** The login host the asset pages are fetched from: the staging one
      unless production is selected. */
  function LoginHost(production: bool): string {
    "login." + (if production then ProductionLogin else StagingLogin)
  }

  /** The URL of the page that refers to `asset`. */
  function PageUrl(asset: Asset, production: bool): string {
    "https://" + LoginHost(production) + asset.Page()
  }

  /** The production page is the staging page with the domains rewritten as
      the checks are: the asset pages follow the same environment switch as
      the table. */
  lemma PageUrlRewritten(asset: Asset)
    ensures RewriteHosts(PageUrl(asset, false)) == PageUrl(asset, true)
  {
    var page := asset.Page();
    LoginDomainRewrittenInPage(asset);
    assert Replace(PageUrl(asset, false), StagingLogin, ProductionLogin) == PageUrl(asset, true);
    ProductionPageLacksStagingPrimary(asset);
    ReplaceAbsent(PageUrl(asset, true), StagingPrimary, ProductionPrimary);
  }

  /** The first domain replacement turns the staging page URL into the
      production one. */
  lemma LoginDomainRewrittenInPage(asset: Asset)
    ensures Replace(PageUrl(asset, false), StagingLogin, ProductionLogin) == PageUrl(asset, true)
  {
    var prefix := "https://" + "login.";
    assert forall j :: 0 <= j < |prefix| ==> prefix[j] != StagingLogin[0];
    PageLacks(asset);
    AbsentByChar(StagingLogin, asset.Page(), 7);
    ReplaceSingle(prefix, StagingLogin, ProductionLogin, asset.Page());
    SchemeAndHost(StagingLogin);
    SchemeAndHost(ProductionLogin);
  }

  /** The scheme and the `login.` label in front of a domain. */
  lemma SchemeAndHost(domain: string)
    ensures "https://" + ("login." + domain) == ("https://" + "login.") + domain
  {
  }

  /** The page paths hold neither a dot nor a `d`. */
  lemma PageLacks(asset: Asset)
    ensures forall j :: 0 <= j < |asset.Page()| ==> asset.Page()[j] != '.' && asset.Page()[j] != 'd'
  {
    match asset {
      case Script =>
      case Stylesheet =>
    }
  }

  /** The production page URLs hold no staging primary domain. */
  lemma ProductionPageLacksStagingPrimary(asset: Asset)
    ensures !Occurs(StagingPrimary, PageUrl(asset, true))
  {
    SchemeAndHost(ProductionLogin);
    var prefix := ("https://" + "login.") + ProductionLogin;
    assert forall j :: 0 <= j < |prefix| ==> prefix[j] != 'd';
    PageLacks(asset);
    AbsentByChar(StagingPrimary, prefix + asset.Page(), 0);
  }

  /** A rewritten check keeps the table's policy: rewriting touches neither
      the method, the status, the POST arguments nor the body checker, and
      never adds or removes an expected redirect. */
  lemma RewriteKeepsPolicy(c: Check, subs: seq<(string, string)>, production: bool)
    requires ValidSubstitutions(subs)
    requires FollowsPolicy(c)
    ensures FollowsPolicy(RewriteCheck(c, subs, production))
  {
  }

  /** Every check of the table still follows its policy once rewritten, for
      either environment and whatever paths were discovered. */
  lemma TemplateRewrittenFollowsPolicy(js: string, css: string, production: bool)
    ensures forall i :: 0 <= i < |Template| ==>
      FollowsPolicy(RewriteCheck(Template[i], Substitutions(js, css), production))
  {
    TemplateFollowsPolicy();
    forall i | 0 <= i < |Template|
      ensures FollowsPolicy(RewriteCheck(Template[i], Substitutions(js, css), production))
    {
      RewriteKeepsPolicy(Template[i], Substitutions(js, css), production);
    }
  }

  /** A POST of the table never reports a redirect error, whatever it is
      answered: POSTs must never redirect, so none expects a target. */
  lemma PostsNeverReportRedirection(c: Check, resp: Response)
    requires FollowsPolicy(c) && c.meth == POST && Comparable(c, resp)
    ensures forall k :: 0 <= k < |CheckPersona(c, resp).errors| ==> !CheckPersona(c, resp).errors[k].WrongRedirection?
  {
    RedirectErrorIff(c, resp);
  }

  /** `rewrite_checks` with the discovered paths, then every check compared
      with its response. */
  method RewriteAndRun(checks: array<Check>, production: bool, js: string, css: string,
                         responses: seq<Response>) returns (reports: seq<Report>)
    requires |responses| == checks.Length
    requires forall i :: 0 <= i < checks.Length ==> Comparable(checks[i], responses[i])
    modifies checks
    ensures forall i :: 0 <= i < checks.Length ==> checks[i] == RewriteCheck(old(checks[i]), Substitutions(js, css), production)
    ensures forall i :: 0 <= i < checks.Length ==> Comparable(checks[i], responses[i])
    ensures |reports| == checks.Length
    ensures forall i :: 0 <= i < checks.Length ==> reports[i] == CheckPersona(checks[i], responses[i])
  {
    RewriteChecks(checks, js, css, production);
    ghost var subs := Substitutions(js, css);
    forall i | 0 <= i < checks.Length
      ensures Comparable(checks[..][i], responses[i])
    {
      assert checks[..][i] == RewriteCheck(old(checks[i]), subs, production);
    }
    reports := RunChecks(checks[..], responses);
  }

  /** The whole script. The two asset pages are fetched from `PageUrl`, with
      `fetch` giving the response the server sends to a GET of a URL; both
      paths are looked up before any rewriting, so both discovery errors are
      reported. With both paths found, `checks` is rewritten in place for the
      environment and every check is compared with its response. Otherwise
      the replacement with the missing path raises on the first check and
      nothing is compared: with the JavaScript path missing the first check
      is left as it was, and with only the stylesheet path missing its `url`
      and `redir` have already had the JavaScript path substituted. */
  method CheckPersonaUrl(checks: array<Check>, production: bool, fetch: string -> Response,
                         responses: seq<Response>)
      returns (js: Option<string>, css: Option<string>, lines: seq<Diagnostic>, reports: seq<Report>)
    requires |responses| == checks.Length
    requires forall i :: 0 <= i < checks.Length ==> Comparable(checks[i], responses[i])
    modifies checks
    ensures js == Discover(Script, fetch(PageUrl(Script, production)).status, fetch(PageUrl(Script, production)).text).path
    ensures css == Discover(Stylesheet, fetch(PageUrl(Stylesheet, production)).status, fetch(PageUrl(Stylesheet, production)).text).path
    ensures lines ==
      Discover(Script, fetch(PageUrl(Script, production)).status, fetch(PageUrl(Script, production)).text).errors +
      Discover(Stylesheet, fetch(PageUrl(Stylesheet, production)).status, fetch(PageUrl(Stylesheet, production)).text).errors
    ensures forall i :: 0 <= i < checks.Length ==> Comparable(checks[i], responses[i])
    ensures js.None? || css.None? ==> reports == []
    ensures js.None? ==> forall i :: 0 <= i < checks.Length ==> checks[i] == old(checks[i])
    ensures js.Some? && css.None? ==>
      && (checks.Length > 0 ==> checks[0] == RewriteCheck(old(checks[0]), [(StaticJsToken, js.value)], false))
      && forall i :: 1 <= i < checks.Length ==> checks[i] == old(checks[i])
    ensures js.Some? && css.Some? ==>
      forall i :: 0 <= i < checks.Length ==> checks[i] == RewriteCheck(old(checks[i]), Substitutions(js.value, css.value), production)
    ensures js.Some? && css.Some? ==>
      |reports| == checks.Length && forall i :: 0 <= i < checks.Length ==> reports[i] == CheckPersona(checks[i], responses[i])
  {
    var script := Discover(Script, fetch(PageUrl(Script, production)).status, fetch(PageUrl(Script, production)).text);
    var stylesheet := Discover(Stylesheet, fetch(PageUrl(Stylesheet, production)).status, fetch(PageUrl(Stylesheet, production)).text);
    js, css := script.path, stylesheet.path;
    lines := script.errors + stylesheet.errors;
    reports := [];
    if js.Some? && css.None? && checks.Length > 0 {
      var c := checks[0];
      c := c.(url := Replace(c.url, StaticJsToken, js.value));
      if c.redir.Some? {
        c := c.(redir := Some(Replace(c.redir.value, StaticJsToken, js.value)));
      }
      checks[0] := c;
      RewriteWithOneSubstitution(old(checks[0]), StaticJsToken, js.value);
    } else if js.Some? && css.Some? {
      reports := RewriteAndRun(checks, production, js.value, css.value, responses);
    }
  }
}
