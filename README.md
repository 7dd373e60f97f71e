# check-persona-url, modelled in Dafny

`check-persona-url.py` audits the public endpoints of the Persona login
service. The script has a table of checks. Each check gives a method, a URL,
the expected status code, and optionally an expected redirect target, POST
arguments and a body checker. The script first adapts the table to the
environment. It discovers the versioned paths of two static assets from the
login pages and substitutes them for the `__STATIC_JS__` and
`__STATIC_CSS__` placeholders. Against production, it also rewrites the
staging domains `anosrep.org` and `diresworb.org` to `persona.org` and
`browserid.org`. Then it sends every request with redirects left unfollowed
and prints an error line for each mismatch: the redirect target, the status
code, or the response body.

The model takes the observed responses as inputs and proves what the script
does with them. Its modules are:

- `Text`: Python's `str.replace` and `str.endswith` on `seq<char>`, with
  lemmas on when a replacement removes, keeps or cannot create an occurrence.
- `Checks`: the check record, the observed response, the diagnostics (one
  constructor per kind of `ERROR:` line), the placeholders and the domains.
- `CheckTable`: the 45-entry table, in four groups, with the policy it
  follows. A POST never expects a redirect and always carries the verifier
  arguments and a body checker. A GET carries neither. Only 301 answers
  expect a redirect target.
- `Rewriter`: `rewrite_checks`, as a method that updates an `array<Check>`
  in place. It is proved against a function on one check, and the properties
  of that function are proved as lemmas.
- `Discovery`: `get_static_js` and `get_static_css` after the fetch. The
  regular-expression search is a scan that is proved to report the match
  Python's `re.search` reports: the leftmost start, and for that start the
  longest `.*`.
- `BodyCheckers`: `post_http`, `dummy_verify` and `disallowed_verify` on the
  decoded body.
- `Engine`: the comparison in `check_persona`, the loop over the table, and
  the whole script (discovery, rewriting, comparison).
- `Scenarios`: worked examples of the comparison.

The environment variable `CHECK_PERSONA_ORG` becomes the `production`
parameter. The asset pages are fetched through a `fetch` parameter, a function
from URL to response, at the URLs the script builds. The responses to the
checks' requests are a parameter too. A body that decodes to a JSON object is an
`Option<map<string, string>>`.

## Model

| member | source | states |
|---|---|---|
| Text.Replace | check-persona-url.py:95-106 | `str.replace`: occurrences found left to right, not overlapping, each replaced; a replacement of the same length keeps the length (so the domain rewrite, `anosrep.org`/`persona.org` and `diresworb.org`/`browserid.org`, never changes a URL's length) |
| Text.EndsWith | check-persona-url.py:33 | `str.endswith`, as used on the captured path at lines 33 and 49 |
| Text.ReplaceAbsent | check-persona-url.py:95-97 | `str.replace` leaves a string without the pattern unchanged |
| Text.ReplaceRemoves | check-persona-url.py:100-106 | after `str.replace`, the pattern no longer occurs, when the replacement cannot complete or start it |
| Text.ReplaceKeepsAbsent | check-persona-url.py:100-106 | `str.replace` does not create an occurrence of another string that the replacement cannot complete or start |
| Text.ReplaceKeepsOccurrence | check-persona-url.py:95-97 | an occurrence of a string that shares no character with the pattern survives `str.replace` |
| Text.ReplaceSkipsPrefix | check-persona-url.py:95-106 | `str.replace` copies a prefix in which the pattern's first character does not occur |
| Text.ReplaceSingle | check-persona-url.py:95-106 | `str.replace` on a text with a single occurrence behind such a prefix replaces exactly that occurrence |
| CheckTable.Moved | check-persona-url.py:113-126 | a permanent-redirect GET entry: status 301 and the given target, and it follows the table's policy |
| CheckTable.Get | check-persona-url.py:118-146 | a GET entry without a target; it follows the table's policy |
| CheckTable.Post | check-persona-url.py:149-168 | a POST entry with the verifier arguments and the given body checker; it follows the table's policy |
| CheckTable.HttpGetsFollowPolicy | check-persona-url.py:113-126 | every HTTP GET in the table carries no POST arguments or body checker, and expects a redirect target only with status 301 |
| CheckTable.HttpsGetsFollowPolicy | check-persona-url.py:131-146 | the same for every HTTPS GET |
| CheckTable.HttpPostsFollowPolicy | check-persona-url.py:149-155 | every HTTP POST carries the verifier arguments and a body checker and expects no redirect |
| CheckTable.HttpsPostsFollowPolicy | check-persona-url.py:161-168 | the same for every HTTPS POST |
| CheckTable.TemplateFollowsPolicy | check-persona-url.py:110-169 | every check in the table follows that policy: POSTs never redirect |
| Rewriter.Substitutions | check-persona-url.py:89-90 | every placeholder to be replaced is non-empty, so each replacement is well defined |
| Rewriter.ApplySubstitutions | check-persona-url.py:94-97 | the placeholder replacements applied in list order to one field (its properties: `SubstitutionsKeepOccurrence`, `SubstitutionsOfPlaceholderFree`) |
| Rewriter.RewriteHosts | check-persona-url.py:100-106 | the two chained domain replacements; see `RewriteHostsRemovesStagingDomains` |
| Rewriter.RewriteField | check-persona-url.py:93-106 | one field rewritten: substitutions, then the domains against production; see `RewriteFieldIdempotent` |
| Rewriter.RewriteCheck | check-persona-url.py:93-107 | rewriting changes only `url` and `redir`; it neither adds nor removes `redir`, and `meth`, `rc`, `postargs` and `check` stay as they were |
| Rewriter.RewriteChecks | check-persona-url.py:93-107 | every element of the array becomes the rewrite of what it was, in place, with the same length and order |
| Rewriter.OneSubstitution | check-persona-url.py:94-95 | applying a single substitution is a single `str.replace` |
| Rewriter.RewriteWithOneSubstitution | check-persona-url.py:94-97 | one pass of the substitution loop on a check replaces in `url` and, when present, in `redir`, and changes nothing else |
| Rewriter.StagingDomainsAvoidPlaceholders | check-persona-url.py:94-97 | the staging domains share no character with either placeholder |
| Rewriter.SubstitutionsKeepOccurrence | check-persona-url.py:94-97 | substituting the placeholders keeps every occurrence of a string that shares no character with them |
| Rewriter.SubstitutionsOfPlaceholderFree | check-persona-url.py:94-97 | substituting leaves a text without placeholders unchanged |
| Rewriter.LoginDomainsDoNotOverlap | check-persona-url.py:100-101 | `persona.org` cannot complete or start `anosrep.org` |
| Rewriter.PrimaryDomainsDoNotOverlap | check-persona-url.py:100-102 | `browserid.org` cannot complete or start `diresworb.org` |
| Rewriter.PrimaryDomainAvoidsStagingLogin | check-persona-url.py:100-102 | `browserid.org`, written by the second replacement, cannot complete or start `anosrep.org`, which the first removed |
| Rewriter.ProductionDomainsDoNotOverlap | check-persona-url.py:100-106 | a production domain cannot complete or start a staging domain |
| Rewriter.RewriteHostsRemovesStagingDomains | check-persona-url.py:100-106 | after the two domain replacements, neither staging domain occurs |
| Rewriter.ProductionLeavesNoStagingDomain | check-persona-url.py:99-106 | against production, neither staging domain is left in `url` or `redir`, whatever paths were substituted |
| Rewriter.StagingKeepsStagingDomains | check-persona-url.py:93-99 | against staging, every staging domain in `url` or `redir` is still there after the rewrite |
| Rewriter.StagingWithoutPlaceholdersUnchanged | check-persona-url.py:93-99 | against staging, a check without placeholders is left exactly as it was |
| Rewriter.RewriteFieldIdempotent | check-persona-url.py:93-106 | rewriting a field twice equals rewriting it once, once the placeholders are gone |
| Rewriter.RewriteCheckIdempotent | check-persona-url.py:93-107 | rewriting a check twice equals rewriting it once, once the placeholders are gone |
| Discovery.SearchFrom | check-persona-url.py:28 | the scan for the pattern from a start position; see `SearchFromIsFirstMatch` |
| Discovery.Search | check-persona-url.py:28 | `re.search` with the pattern of line 28 (line 44 for the stylesheet), returning group 1; see `SearchIsFirstMatch` |
| Discovery.LineEnd | check-persona-url.py:28 | the end of the line that `.*` can span: the first line break at or after a position, or the end of the body |
| Discovery.QuoteFrom | check-persona-url.py:28 | the first quote at or after a position, or none when none follows |
| Discovery.LastCandidate | check-persona-url.py:28 | the last `/v/` on the line that a quote follows: the longest `.*` |
| Discovery.SearchFromIsFirstMatch | check-persona-url.py:28 | the scan returns the capture of the first match at or after its start, and returns none only when no match exists there |
| Discovery.SearchIsFirstMatch | check-persona-url.py:28 | the path found is the capture group of the leftmost match with the longest `.*`, as `re.search` reports it |
| Discovery.FirstQuoteUnique | check-persona-url.py:28 | `[^"]*"` can close at only one quote: the first one after the `v/` |
| Discovery.FirstMatchUnique | check-persona-url.py:28 | there is only one leftmost-longest match: its start, the end of `.*` and the closing quote are determined |
| Discovery.EveryFirstMatchIsFound | check-persona-url.py:28-32 | when the search finds a path, the leftmost-longest match captures exactly that path |
| Discovery.CaptureShape | check-persona-url.py:28 | a capture starts with `v/` and holds no quote |
| Discovery.SearchShape | check-persona-url.py:28-32 | a path the search reports starts with `v/` and holds no quote |
| Discovery.Discover | check-persona-url.py:23-52 | a path is returned exactly when the status is 200, the search found a path, and that path ends with `communication_iframe.js` or `dialog.css`; the path is the one found, starts with `v/` and holds no quote; otherwise there is exactly one error line, for the first of the three conditions that failed |
| Discovery.DiscoverFindsFirstMatch | check-persona-url.py:23-52 | the same in terms of the pattern: a path is returned exactly when the status is 200 and the capture of the leftmost-longest match ends with the file name, and it is that capture; "could not find" is reported exactly when the status is 200 and the pattern matches nowhere |
| BodyCheckers.PostHttp | check-persona-url.py:55-58 | an error line exactly when `error` is missing or differs from the HTTPS-required message; the line shows the raw body |
| BodyCheckers.DummyVerify | check-persona-url.py:61-71 | no line exactly when `status` is `failure` and `reason` is `no certificates provided`; with `status` present, exactly one line per failed test; the first reports a wrong `status`, and the last reports a missing `reason` as non-conforming or a wrong `reason` (showing the `status` value); an undecodable body or a missing `status` gives the single non-conforming line |
| BodyCheckers.DisallowedVerify | check-persona-url.py:73-80 | no line exactly when `status` is `failure`; at most one line, non-conforming when `status` is missing or the body did not decode |
| BodyCheckers.RunBodyCheck | check-persona-url.py:194-195 | an attached checker yields at most two lines, each a body-content line |
| BodyCheckers.DisallowedIsPrefixOfDummy | check-persona-url.py:61-80 | the lines of `disallowed_verify` are a prefix of those of `dummy_verify` |
| BodyCheckers.DummyStricterThanDisallowed | check-persona-url.py:61-80 | a body `dummy_verify` accepts is accepted by `disallowed_verify`; when only the former complains, `reason` is wrong |
| BodyCheckers.NonConformingOnlyLast | check-persona-url.py:61-80 | a non-conforming line can only be a checker's last line |
| Engine.Comparable | check-persona-url.py:55-58 | the responses the script compares without raising: a body checked by `post_http` decoded (line 56) |
| Engine.ObservedLocation | check-persona-url.py:181-183 | the observed target is the `location` header for 301 and 302, `None` for a 301 or 302 without that header (the header lookup of the pre-1.0 `requests` API the script is written for returns `None` for a missing key), and the empty string for any other status |
| Engine.RedirectLines | check-persona-url.py:188-190 | one redirect line, naming both targets, exactly when an expected target is present, not empty, and differs from the observed one; a missing observed target (`None`) differs from every expected one |
| Engine.StatusLines | check-persona-url.py:191-193 | one status line, naming both codes, exactly when the codes differ |
| Engine.BodyLines | check-persona-url.py:194-195 | no body lines without a checker; at most two, all about the body |
| Engine.CheckPersona | check-persona-url.py:181-195 | the comparison in `check_persona` after the request; its summary and lines are stated by `ReportLines` |
| Engine.ReportLines | check-persona-url.py:181-195 | the summary shows method, URL, status and observed target; at most one redirect line, first; at most one status line, next; then exactly the body checker's lines, and nothing else |
| Engine.RedirectErrorIff | check-persona-url.py:188-190 | a report holds a redirect line exactly when the expected target is present, not empty, and differs from the observed one |
| Engine.StatusErrorIff | check-persona-url.py:191-193 | a report holds a status line exactly when the status differs from the expected one |
| Engine.BodyLinesAlwaysReported | check-persona-url.py:194-195 | the checker's lines end the report, whatever the status and redirect comparisons found |
| Engine.RunChecks | check-persona-url.py:198-199 | every check is compared with its own response, in table order, and none stops the run |
| Engine.LoginHost | check-persona-url.py:85-87 | the host the asset pages come from: `login.anosrep.org`, or `login.persona.org` when production is selected |
| Engine.PageUrl | check-persona-url.py:24-40 | the URL of the page that refers to an asset: `/communication_iframe` (line 24) or `/sign_in` (line 40) on that host |
| Engine.PageUrlRewritten | check-persona-url.py:84-106 | the production page URL is the staging one with the domains rewritten as the checks are, so the pages follow the same environment switch as the table |
| Engine.LoginDomainRewrittenInPage | check-persona-url.py:85-101 | the first domain replacement turns the staging page URL into the production one |
| Engine.PageLacks | check-persona-url.py:24-40 | the page paths hold neither a dot nor a `d` |
| Engine.ProductionPageLacksStagingPrimary | check-persona-url.py:87-102 | the production page URLs hold no `diresworb.org`, so the second replacement keeps them |
| Engine.RewriteKeepsPolicy | check-persona-url.py:93-107 | a check that follows the table's policy still follows it after rewriting |
| Engine.TemplateRewrittenFollowsPolicy | check-persona-url.py:110-169 | the whole table, rewritten for either environment, still follows the policy |
| Engine.PostsNeverReportRedirection | check-persona-url.py:149-168 | a POST of the table never reports a redirect line, whatever it is answered |
| Engine.RewriteAndRun | check-persona-url.py:110-199 | the table is rewritten in place with the given paths, then every rewritten check is compared with its response |
| Engine.CheckPersonaUrl | check-persona-url.py:84-199 | the whole script: the paths are discovered from the pages fetched at `PageUrl`, and both discovery error lines are reported; with both paths, the table is rewritten in place and every check compared with its response; with the JavaScript path missing nothing changes; with only the stylesheet path missing, the first check has had the JavaScript path substituted in `url` and `redir` before the raise; either way nothing is compared |
| Scenarios.RedirectMatches | check-persona-url.py:188-193 | a GET answered with the expected redirect target reports nothing |
| Scenarios.RedirectDiffers | check-persona-url.py:188-190 | answered with another target, it reports one redirect line naming both |
| Scenarios.RedirectWithoutLocation | check-persona-url.py:181-190 | answered with a 301 that has no `location` header, it reports one redirect line showing `None` and does not stop |
| Scenarios.VerifierRefuses | check-persona-url.py:61-71 | a verifier POST answered `failure` / `no certificates provided` reports nothing |
| Scenarios.VerifierWrongReason | check-persona-url.py:67-69 | with another reason, it reports one line, which shows the `status` value |
| Scenarios.VerifierWrongStatusNoReason | check-persona-url.py:61-71 | with a wrong status and no reason, it reports the status line, then the non-conforming line |

## Left out

- The HTTP requests (lines 24, 40, 173-179), the JSON encoding of the POST arguments, and `allow_redirects` are left out. They are network I/O. The status, headers and decoded body of each response are inputs.
- Reading `CHECK_PERSONA_ORG` (lines 86 and 91) is left out. The model takes a `production` flag instead.
- The printed text, its column formatting, and the summary line's layout are left out. Error lines are `Diagnostic` values, and the summary is the `Report` fields.
- Python's regular-expression engine in general is left out. Only the one pattern the script uses is modelled, by a direct scan. The scan is proved equal to that pattern's leftmost-longest match.
- Response header names are matched exactly, as lower-case keys. The HTTP library's case-insensitive lookup is not modelled.
- JSON values are strings. A `status` or `reason` that is a number or an object is not modelled.
- The traceback printed when a path is missing is left out. `str.replace` with `None` raises at line 95 on the first check and ends the script; the model returns the table as far as it was rewritten and no comparisons.
- BodyCheckers.PostHttp requires a decoded body. `post_http` has no `try`, so an undecodable body raises at line 56.
- Failures of the request itself are not caught by the source: any such error ends the run. The model has no transport errors, so every check is compared.
