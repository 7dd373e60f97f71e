/** The table of expected behaviours, written for the staging domains with
    placeholders for the static asset paths. */
module CheckTable {
  import opened Checks

  /** The arguments of every POST to /verify: a dummy assertion that the
      verifier rejects for carrying no certificates. */
  const VerifyArgs: Json := map["assertion" := "foo", "audience" := "bar"]

  /** GETs of the main site over HTTP, by each of its host names. */
  const HttpGets: seq<Check> := [
      Moved("http://diresworb.org/", "https://login.anosrep.org/"),
      Moved("http://diresworb.org/about", "https://login.anosrep.org/about"),
      Moved("http://www.diresworb.org/", "https://login.anosrep.org/"),
      Moved("http://www.diresworb.org/about", "https://login.anosrep.org/about"),
      Moved("http://anosrep.org/", "https://login.anosrep.org/"),
      Get(404, "http://anosrep.org/about"),
      Moved("http://www.anosrep.org/", "https://anosrep.org/"),
      Get(404, "http://www.anosrep.org/about"),
      Moved("http://verifier.login.anosrep.org/", "https://verifier.login.anosrep.org/"),
      Moved("http://static.login.anosrep.org/", "https://login.anosrep.org/"),
      Get(404, "http://static.login.anosrep.org/__STATIC_JS__"),
      Get(404, "http://static.login.anosrep.org/__STATIC_CSS__"),
      Moved("http://login.anosrep.org/", "https://login.anosrep.org/"),
      Moved("http://login.anosrep.org/about", "https://login.anosrep.org/about")
    ]

  /** GETs of the main site over HTTPS, by each of its host names. */
  const HttpsGets: seq<Check> := [
      Moved("https://diresworb.org/", "https://login.anosrep.org/"),
      Moved("https://diresworb.org/about", "https://login.anosrep.org/about"),
      Moved("https://www.diresworb.org/", "https://login.anosrep.org/"),
      Moved("https://www.diresworb.org/about", "https://login.anosrep.org/about"),
      Moved("https://anosrep.org/", "https://login.anosrep.org/"),
      Get(404, "https://anosrep.org/about"),
      Moved("https://www.anosrep.org/", "https://anosrep.org/"),
      Get(404, "https://www.anosrep.org/about"),
      Get(404, "https://verifier.login.anosrep.org/"),
      Get(405, "https://verifier.login.anosrep.org/verify"),
      Get(404, "https://login.anosrep.org/verify"),
      Moved("https://static.login.anosrep.org/", "https://login.anosrep.org/"),
      Get(200, "https://static.login.anosrep.org/__STATIC_JS__"),
      Get(200, "https://static.login.anosrep.org/__STATIC_CSS__"),
      Get(200, "https://login.anosrep.org/"),
      Get(200, "https://login.anosrep.org/about")
    ]

  /** POSTs to /verify over HTTP: refused for not using HTTPS. */
  const HttpPosts: seq<Check> := [
      Post(404, "http://diresworb.org/verify", PostHttpCheck),
      Post(404, "http://www.diresworb.org/verify", PostHttpCheck),
      Post(404, "http://anosrep.org/verify", PostHttpCheck),
      Post(404, "http://www.anosrep.org/verify", PostHttpCheck),
      Post(404, "http://verifier.login.anosrep.org/verify", PostHttpCheck),
      Post(404, "http://static.login.anosrep.org/verify", PostHttpCheck),
      Post(404, "http://login.anosrep.org/verify", PostHttpCheck)
    ]

  /** POSTs to /verify over HTTPS: only the verifier answers with its own failure;
      the other hosts refuse the method. */
  const HttpsPosts: seq<Check> := [
      Post(200, "https://diresworb.org/verify", DummyVerifyCheck),
      Post(404, "https://www.diresworb.org/verify", DisallowedVerifyCheck),
      Post(404, "https://anosrep.org/verify", DisallowedVerifyCheck),
      Post(404, "https://www.anosrep.org/verify", DisallowedVerifyCheck),
      Post(200, "https://verifier.login.anosrep.org/verify", DummyVerifyCheck),
      Post(404, "https://verifier.login.anosrep.org/", DisallowedVerifyCheck),
      Post(404, "https://static.login.anosrep.org/verify", DisallowedVerifyCheck),
      Post(404, "https://login.anosrep.org/verify", DisallowedVerifyCheck)
    ]

  /** The whole table, in the order the checks run. */
  const Template: seq<Check> := HttpGets + HttpsGets + HttpPosts + HttpsPosts

  /** The policy one entry of the table follows: POSTs never redirect and
      carry the verify arguments and a body checker; GETs carry neither; a
      redirect target is expected only together with status 301. */
  predicate FollowsPolicy(c: Check) {
    && (c.meth == POST ==> c.redir.None? && c.postargs == Some(VerifyArgs) && c.check.Some?)
    && (c.meth == GET ==> c.postargs.None? && c.check.None?)
    && (c.redir.Some? ==> c.rc == 301)
  }

  /** A GET expected to be answered 301 with the redirect target `target`. */
  function Moved(url: string, target: string): (c: Check)
    ensures c.meth == GET && c.rc == 301 && c.url == url && c.redir == Some(target)
    ensures FollowsPolicy(c)
  {
    Check(GET, 301, url, Some(target), None, None)
  }

  /** A GET expected to be answered `rc`, with no redirect target checked. */
  function Get(rc: int, url: string): (c: Check)
    ensures c.meth == GET && c.rc == rc && c.url == url && c.redir.None?
    ensures FollowsPolicy(c)
  {
    Check(GET, rc, url, None, None, None)
  }

  /** A POST of the verify arguments expected to be answered `rc`, its body
      inspected by `check`. */
  function Post(rc: int, url: string, check: BodyCheck): (c: Check)
    ensures c.meth == POST && c.rc == rc && c.url == url && c.check == Some(check)
    ensures FollowsPolicy(c)
  {
    Check(POST, rc, url, None, Some(VerifyArgs), Some(check))
  }

  /** Every HTTP GET carries no POST arguments or body checker, and expects
      a redirect target only with status 301. */
  lemma HttpGetsFollowPolicy()
    ensures forall c :: c in HttpGets ==> FollowsPolicy(c)
  {
  }

  /** The same for every HTTPS GET. */
  lemma HttpsGetsFollowPolicy()
    ensures forall c :: c in HttpsGets ==> FollowsPolicy(c)
  {
  }

  /** Every HTTP POST carries the verifier arguments and a body checker, and
      expects no redirect. */
  lemma HttpPostsFollowPolicy()
    ensures forall c :: c in HttpPosts ==> FollowsPolicy(c)
  {
  }

  /** The same for every HTTPS POST. */
  lemma HttpsPostsFollowPolicy()
    ensures forall c :: c in HttpsPosts ==> FollowsPolicy(c)
  {
  }

  /** Every entry of the table follows the policy. */
  lemma TemplateFollowsPolicy()
    ensures forall i :: 0 <= i < |Template| ==> FollowsPolicy(Template[i])
  {
    HttpGetsFollowPolicy();
    HttpsGetsFollowPolicy();
    HttpPostsFollowPolicy();
    HttpsPostsFollowPolicy();
    forall i | 0 <= i < |Template| ensures FollowsPolicy(Template[i]) {
      assert Template[i] in Template;
    }
  }
}
