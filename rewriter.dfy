/** Adapting the check table to the target environment: the static asset
    placeholders are replaced by the discovered paths and, against
    production, the staging domains by the production ones. */
module Rewriter {
  import opened Text
  import opened Checks

  /** The placeholder/value pairs, in the order they are applied. */
  function Substitutions(js: string, css: string): (r: seq<(string, string)>)
    ensures ValidSubstitutions(r)
  {
    [(StaticJsToken, js), (StaticCssToken, css)]
  }

  /** Every placeholder is a non-empty string. */
  predicate ValidSubstitutions(subs: seq<(string, string)>) {
    forall k :: 0 <= k < |subs| ==> |subs[k].0| > 0
  }

  /** `s` after `s.replace(token, value)` for each pair of `subs` in turn. */
  function ApplySubstitutions(s: string, subs: seq<(string, string)>): string
    requires ValidSubstitutions(subs)
    decreases |subs|
  {
    if subs == [] then s
    else
      var last := subs[|subs| - 1];
      Replace(ApplySubstitutions(s, subs[..|subs| - 1]), last.0, last.1)
  }

  /** `s` with the staging login domain and then the staging primary domain
      replaced by their production counterparts. */
  function RewriteHosts(s: string): string {
    Replace(Replace(s, StagingLogin, ProductionLogin), StagingPrimary, ProductionPrimary)
  }

  /** The rewrite of one text field: substitutions first, then the domains
      when `production` is set. */
  function RewriteField(s: string, subs: seq<(string, string)>, production: bool): string
    requires ValidSubstitutions(subs)
  {
    var t := ApplySubstitutions(s, subs);
    if production then RewriteHosts(t) else t
  }

  /** The check as rewritten: only `url` and, when present, `redir` change. */
  function RewriteCheck(c: Check, subs: seq<(string, string)>, production: bool): (r: Check)
    requires ValidSubstitutions(subs)
    ensures r.meth == c.meth && r.rc == c.rc && r.postargs == c.postargs && r.check == c.check
    ensures r.redir.Some? <==> c.redir.Some?
  {
    c.(url := RewriteField(c.url, subs, production),
       redir := if c.redir.Some? then Some(RewriteField(c.redir.value, subs, production)) else None)
  }

  /** Rewriting for staging with a single substitution is one `replace` on
      `url` and, when present, on `redir`. */
  lemma RewriteWithOneSubstitution(c: Check, pat: string, rep: string)
    requires |pat| > 0
    ensures RewriteCheck(c, [(pat, rep)], false) ==
      c.(url := Replace(c.url, pat, rep),
         redir := if c.redir.Some? then Some(Replace(c.redir.value, pat, rep)) else None)
  {
    OneSubstitution(c.url, pat, rep);
    if c.redir.Some? {
      OneSubstitution(c.redir.value, pat, rep);
    }
  }

  /** A single substitution is a single `replace`. */
  lemma OneSubstitution(s: string, pat: string, rep: string)
    requires |pat| > 0
    ensures ApplySubstitutions(s, [(pat, rep)]) == Replace(s, pat, rep)
  {
    var subs := [(pat, rep)];
    assert subs[..|subs| - 1] == [];
    assert ApplySubstitutions(s, []) == s;
  }

  /** Rewrites every check of `checks` in place: for each check, each
      substitution is applied to `url` and to `redir` when the check has one;
      then, when `rewriteHosts` is set, the staging domains are replaced. */
  method RewriteChecks(checks: array<Check>, js: string, css: string, rewriteHosts: bool)
    modifies checks
    ensures forall i :: 0 <= i < checks.Length ==>
      checks[i] == RewriteCheck(old(checks[i]), Substitutions(js, css), rewriteHosts)
  {
    var substitutions := Substitutions(js, css);
    for i := 0 to checks.Length
      invariant forall k :: 0 <= k < i ==>
        checks[k] == RewriteCheck(old(checks[k]), substitutions, rewriteHosts)
      invariant forall k :: i <= k < checks.Length ==> checks[k] == old(checks[k])
    {
      // The check being rewritten; no other check is touched until it is
      // stored back.
      var c := checks[i];
      for j := 0 to |substitutions|
        invariant c.url == ApplySubstitutions(checks[i].url, substitutions[..j])
        invariant c.redir.Some? <==> checks[i].redir.Some?
        invariant c.redir.Some? ==>
          c.redir.value == ApplySubstitutions(checks[i].redir.value, substitutions[..j])
        invariant c.(url := checks[i].url, redir := checks[i].redir) == checks[i]
      {
        var subst := substitutions[j];
        assert substitutions[..j + 1][..j] == substitutions[..j];
        c := c.(url := Replace(c.url, subst.0, subst.1));
        if c.redir.Some? {
          c := c.(redir := Some(Replace(c.redir.value, subst.0, subst.1)));
        }
      }
      assert substitutions[..|substitutions|] == substitutions;
      if rewriteHosts {
        c := c.(url := RewriteHosts(c.url));
        if c.redir.Some? {
          c := c.(redir := Some(RewriteHosts(c.redir.value)));
        }
      }
      checks[i] := c;
    }
  }

  /** The staging domains share no character with the placeholders. */
  lemma StagingDomainsAvoidPlaceholders()
    ensures NoCommonChar(StagingLogin, StaticJsToken) && NoCommonChar(StagingLogin, StaticCssToken)
    ensures NoCommonChar(StagingPrimary, StaticJsToken) && NoCommonChar(StagingPrimary, StaticCssToken)
  {
    NoCommonCharByCase(StagingLogin, StaticJsToken);
    NoCommonCharByCase(StagingLogin, StaticCssToken);
    NoCommonCharByCase(StagingPrimary, StaticJsToken);
    NoCommonCharByCase(StagingPrimary, StaticCssToken);
  }

  /** A string sharing no character with any placeholder survives the
      substitutions wherever it occurs. */
  lemma {:induction false} SubstitutionsKeepOccurrence(s: string, subs: seq<(string, string)>, h: string)
    requires ValidSubstitutions(subs) && |h| > 0 && Occurs(h, s)
    requires forall k :: 0 <= k < |subs| ==> NoCommonChar(h, subs[k].0)
    ensures Occurs(h, ApplySubstitutions(s, subs))
    decreases |subs|
  {
    if subs != [] {
      var init, last := subs[..|subs| - 1], subs[|subs| - 1];
      SubstitutionsKeepOccurrence(s, init, h);
      var t := ApplySubstitutions(s, init);
      var i :| 0 <= i <= |t| - |h| && OccursAt(h, t, i);
      ReplaceKeepsOccurrence(h, t, last.0, last.1, i);
    }
  }

  /** Substitutions leave a string that holds none of the placeholders
      unchanged. */
  lemma {:induction false} SubstitutionsOfPlaceholderFree(s: string, subs: seq<(string, string)>)
    requires ValidSubstitutions(subs)
    requires forall k :: 0 <= k < |subs| ==> !Occurs(subs[k].0, s)
    ensures ApplySubstitutions(s, subs) == s
    decreases |subs|
  {
    if subs != [] {
      var init, last := subs[..|subs| - 1], subs[|subs| - 1];
      SubstitutionsOfPlaceholderFree(s, init);
      ReplaceAbsent(s, last.0, last.1);
    }
  }

  /** The production login domain cannot complete or start the staging one. */
  lemma LoginDomainsDoNotOverlap()
    ensures NoOverlap(StagingLogin, ProductionLogin)
  {
    NoOverlapByComputation(StagingLogin, ProductionLogin);
  }

  /** The production primary domain cannot complete or start the staging one. */
  lemma PrimaryDomainsDoNotOverlap()
    ensures NoOverlap(StagingPrimary, ProductionPrimary)
  {
    NoOverlapByComputation(StagingPrimary, ProductionPrimary);
  }

  /** The production primary domain cannot complete or start the staging
      login domain, which the first replacement already removed. */
  lemma PrimaryDomainAvoidsStagingLogin()
    ensures NoOverlap(StagingLogin, ProductionPrimary)
  {
    NoOverlapByComputation(StagingLogin, ProductionPrimary);
  }

  /** The production domains cannot complete or start a staging domain. */
  lemma ProductionDomainsDoNotOverlap()
    ensures NoOverlap(StagingLogin, ProductionLogin)
    ensures NoOverlap(StagingPrimary, ProductionPrimary)
    ensures NoOverlap(StagingLogin, ProductionPrimary)
  {
    LoginDomainsDoNotOverlap();
    PrimaryDomainsDoNotOverlap();
    PrimaryDomainAvoidsStagingLogin();
  }

  /** After the domain rewrite neither staging domain occurs. */
  lemma RewriteHostsRemovesStagingDomains(s: string)
    ensures !Occurs(StagingLogin, RewriteHosts(s))
    ensures !Occurs(StagingPrimary, RewriteHosts(s))
  {
    ProductionDomainsDoNotOverlap();
    var t := Replace(s, StagingLogin, ProductionLogin);
    ReplaceRemoves(s, StagingLogin, ProductionLogin);
    ReplaceKeepsAbsent(t, StagingLogin, StagingPrimary, ProductionPrimary);
    ReplaceRemoves(t, StagingPrimary, ProductionPrimary);
  }

  /** Against production, no staging domain is left in `url` or `redir`,
      whatever the discovered asset paths are. */
  lemma ProductionLeavesNoStagingDomain(c: Check, subs: seq<(string, string)>)
    requires ValidSubstitutions(subs)
    ensures var r := RewriteCheck(c, subs, true);
      && !Occurs(StagingLogin, r.url) && !Occurs(StagingPrimary, r.url)
      && (r.redir.Some? ==> !Occurs(StagingLogin, r.redir.value) && !Occurs(StagingPrimary, r.redir.value))
  {
    RewriteHostsRemovesStagingDomains(ApplySubstitutions(c.url, subs));
    if c.redir.Some? {
      RewriteHostsRemovesStagingDomains(ApplySubstitutions(c.redir.value, subs));
    }
  }

  /** Against staging, each staging domain that occurs in `url` or `redir`
      still occurs there after the rewrite. */
  lemma StagingKeepsStagingDomains(c: Check, js: string, css: string, domain: string)
    requires domain == StagingLogin || domain == StagingPrimary
    ensures var r := RewriteCheck(c, Substitutions(js, css), false);
      && (Occurs(domain, c.url) ==> Occurs(domain, r.url))
      && (c.redir.Some? && Occurs(domain, c.redir.value) ==> Occurs(domain, r.redir.value))
  {
    StagingDomainsAvoidPlaceholders();
    var subs := Substitutions(js, css);
    if Occurs(domain, c.url) {
      SubstitutionsKeepOccurrence(c.url, subs, domain);
    }
    if c.redir.Some? && Occurs(domain, c.redir.value) {
      SubstitutionsKeepOccurrence(c.redir.value, subs, domain);
    }
  }

  /** Against staging, a check without placeholders is left exactly as it
      was. */
  lemma StagingWithoutPlaceholdersUnchanged(c: Check, subs: seq<(string, string)>)
    requires ValidSubstitutions(subs)
    requires forall k :: 0 <= k < |subs| ==> !Occurs(subs[k].0, c.url)
    requires c.redir.Some? ==> forall k :: 0 <= k < |subs| ==> !Occurs(subs[k].0, c.redir.value)
    ensures RewriteCheck(c, subs, false) == c
  {
    SubstitutionsOfPlaceholderFree(c.url, subs);
    if c.redir.Some? {
      SubstitutionsOfPlaceholderFree(c.redir.value, subs);
    }
  }

  /** Rewriting a field twice is rewriting it once, once the placeholders
      are exhausted. */
  lemma RewriteFieldIdempotent(s: string, subs: seq<(string, string)>, production: bool)
    requires ValidSubstitutions(subs)
    requires forall k :: 0 <= k < |subs| ==> !Occurs(subs[k].0, RewriteField(s, subs, production))
    ensures RewriteField(RewriteField(s, subs, production), subs, production) == RewriteField(s, subs, production)
  {
    var r := RewriteField(s, subs, production);
    SubstitutionsOfPlaceholderFree(r, subs);
    if production {
      RewriteHostsRemovesStagingDomains(ApplySubstitutions(s, subs));
      ReplaceAbsent(r, StagingLogin, ProductionLogin);
      ReplaceAbsent(r, StagingPrimary, ProductionPrimary);
    }
  }

  /** Rewriting a check twice is rewriting it once, once the placeholders
      are exhausted. */
  lemma RewriteCheckIdempotent(c: Check, subs: seq<(string, string)>, production: bool)
    requires ValidSubstitutions(subs)
    requires forall k :: 0 <= k < |subs| ==> !Occurs(subs[k].0, RewriteCheck(c, subs, production).url)
    requires c.redir.Some? ==>
      forall k :: 0 <= k < |subs| ==> !Occurs(subs[k].0, RewriteCheck(c, subs, production).redir.value)
    ensures RewriteCheck(RewriteCheck(c, subs, production), subs, production) == RewriteCheck(c, subs, production)
  {
    RewriteFieldIdempotent(c.url, subs, production);
    if c.redir.Some? {
      RewriteFieldIdempotent(c.redir.value, subs, production);
    }
  }
}
