/** Discovery of the versioned static asset paths from the body of a page of
    the target environment. The fetch itself is not modelled: the status
    code and body it returned are inputs. */
module Discovery {
  import opened Text
  import opened Checks

  /** The two assets whose paths change with each release. */
  datatype Asset = Script | Stylesheet {
    /** The page whose body refers to the asset. */
    function Page(): string {
      match this
      case Script => "/communication_iframe"
      case Stylesheet => "/sign_in"
    }

    /** The element and attribute that hold the reference. */
    function Tag(): string {
      match this
      case Script => "script src"
      case Stylesheet => "link href"
    }

    /** The file name the discovered path must end with. */
    function FileName(): string {
      match this
      case Script => "communication_iframe.js"
      case Stylesheet => "dialog.css"
    }

    /** The literal text the pattern starts with: the attribute and its
        opening quote. */
    function Opening(): string {
      Tag() + "=\""
    }
  }

  /** The outcome of discovery: the path when it was found, and the error
      lines reported otherwise. */
  datatype Discovered = Discovered(path: Option<string>, errors: seq<Diagnostic>)

  /** The pattern `<opening>.*\/(v/[^"]*)"` matches `body` starting at `i`,
      with `.*` ending before the slash at `p` and the closing quote at `q`:
      `.*` spans no line break, `[^"]*` spans no quote. */
  ghost predicate MatchAt(body: string, opening: string, i: int, p: int, q: int) {
    && 0 <= i && i + |opening| <= p && p + 3 <= q < |body|
    && body[i..i + |opening|] == opening
    && (forall m :: i + |opening| <= m < p ==> body[m] != '\n')
    && body[p] == '/' && body[p + 1] == 'v' && body[p + 2] == '/'
    && (forall m :: p + 3 <= m < q ==> body[m] != '"')
    && body[q] == '"'
  }

  /** The pattern matches somewhere in `body`. */
  ghost predicate Matches(body: string, opening: string) {
    exists i, p, q :: MatchAt(body, opening, i, p, q)
  }

  /** The match a left-to-right search reports among those starting at or
      after `from`: the leftmost start, and for that start the longest `.*`. */
  ghost predicate FirstMatchFrom(body: string, opening: string, from: int, i: int, p: int, q: int) {
    && from <= i
    && MatchAt(body, opening, i, p, q)
    && (forall i', p', q' :: from <= i' && MatchAt(body, opening, i', p', q') ==> i < i' || (i == i' && p' <= p))
  }

  /** The first index at or after `k` that holds a line break, or the end of
      `body`. */
  function LineEnd(body: string, k: nat): (r: nat)
    requires k <= |body|
    ensures k <= r <= |body|
    ensures r < |body| ==> body[r] == '\n'
    ensures forall m :: k <= m < r ==> body[m] != '\n'
    decreases |body| - k
  {
    if k == |body| || body[k] == '\n' then k else LineEnd(body, k + 1)
  }

  /** The first index at or after `k` that holds a quote, if any. */
  function QuoteFrom(body: string, k: nat): (r: Option<nat>)
    requires k <= |body|
    ensures r.Some? ==> k <= r.value < |body| && body[r.value] == '"'
    ensures r.Some? ==> forall m :: k <= m < r.value ==> body[m] != '"'
    ensures r.None? ==> forall m :: k <= m < |body| ==> body[m] != '"'
    decreases |body| - k
  {
    if k == |body| then None
    else if body[k] == '"' then Some(k)
    else QuoteFrom(body, k + 1)
  }

  /** `/v/` starts at index `p`. */
  predicate SlashVAt(body: string, p: nat) {
    p + 3 <= |body| && body[p] == '/' && body[p + 1] == 'v' && body[p + 2] == '/'
  }

  /** `p` can end the `.*`: `/v/` starts there and a quote follows it. */
  predicate Candidate(body: string, p: nat) {
    SlashVAt(body, p) && QuoteFrom(body, p + 3).Some?
  }

  /** The last candidate in `[k, n)`, if any: the longest `.*`. */
  function LastCandidate(body: string, k: nat, n: nat): (r: Option<nat>)
    requires k <= n <= |body|
    ensures r.Some? ==> k <= r.value < n && Candidate(body, r.value)
    ensures forall p :: k <= p < n && Candidate(body, p) ==> r.Some? && p <= r.value
    decreases n - k
  {
    if n == k then None
    else if Candidate(body, n - 1) then Some(n - 1)
    else LastCandidate(body, k, n - 1)
  }

  /** The capture group of the first match starting at or after `i`, found by
      trying each start in turn. */
  function SearchFrom(body: string, opening: string, i: nat): Option<string>
    decreases |body| - i
  {
    if i + |opening| > |body| then None
    else
      var k := i + |opening|;
      if body[i..k] == opening && LastCandidate(body, k, LineEnd(body, k)).Some? then
        var p := LastCandidate(body, k, LineEnd(body, k)).value;
        Some(body[p + 1..QuoteFrom(body, p + 3).value])
      else SearchFrom(body, opening, i + 1)
  }

  /** `re.search` of the pattern: the capture group of the first match. */
  function Search(body: string, opening: string): Option<string> {
    SearchFrom(body, opening, 0)
  }

  /** The `.*` of every match ends at a candidate before the end of its
      line. */
  lemma MatchEndsAtCandidate(body: string, opening: string, i: int, p: int, q: int)
    requires MatchAt(body, opening, i, p, q)
    ensures p < LineEnd(body, i + |opening|) && Candidate(body, p)
  {
  }

  /** The match found at start `i` is the one with the longest `.*`. */
  lemma MatchAtCandidate(body: string, opening: string, i: nat)
    requires i + |opening| <= |body| && body[i..i + |opening|] == opening
    requires LastCandidate(body, i + |opening|, LineEnd(body, i + |opening|)).Some?
    ensures var p := LastCandidate(body, i + |opening|, LineEnd(body, i + |opening|)).value;
      && MatchAt(body, opening, i, p, QuoteFrom(body, p + 3).value)
      && forall p', q' :: MatchAt(body, opening, i, p', q') ==> p' <= p
  {
    var k := i + |opening|;
    var n := LineEnd(body, k);
    forall p', q' | MatchAt(body, opening, i, p', q')
      ensures p' < n && Candidate(body, p')
    {
      MatchEndsAtCandidate(body, opening, i, p', q');
    }
  }

  /** A match starting at `i` is one the scan sees there: the opening is at
      `i` and its line has a candidate. */
  lemma MatchSeenByScan(body: string, opening: string, i: nat, p: int, q: int)
    requires MatchAt(body, opening, i, p, q)
    ensures i + |opening| <= |body| && body[i..i + |opening|] == opening
    ensures LastCandidate(body, i + |opening|, LineEnd(body, i + |opening|)).Some?
  {
    MatchEndsAtCandidate(body, opening, i, p, q);
  }

  /** When the scan finds a match at `from`, it is the first from there on. */
  lemma FirstMatchHere(body: string, opening: string, from: nat)
    requires from + |opening| <= |body| && body[from..from + |opening|] == opening
    requires LastCandidate(body, from + |opening|, LineEnd(body, from + |opening|)).Some?
    ensures var p := LastCandidate(body, from + |opening|, LineEnd(body, from + |opening|)).value;
      FirstMatchFrom(body, opening, from, from, p, QuoteFrom(body, p + 3).value)
  {
    MatchAtCandidate(body, opening, from);
  }

  /** With no match at `from`, the first match after it is the first from
      `from` on. */
  lemma FirstMatchLater(body: string, opening: string, from: nat, i: int, p: int, q: int)
    requires forall p', q' :: !MatchAt(body, opening, from, p', q')
    requires FirstMatchFrom(body, opening, from + 1, i, p, q)
    ensures FirstMatchFrom(body, opening, from, i, p, q)
  {
  }

  /** The scan sees every match that starts at `from`. */
  lemma ScanSeesMatchesAt(body: string, opening: string, from: nat)
    requires from + |opening| <= |body|
    ensures (forall p, q :: !MatchAt(body, opening, from, p, q)) ||
      (body[from..from + |opening|] == opening &&
       LastCandidate(body, from + |opening|, LineEnd(body, from + |opening|)).Some?)
  {
    forall p, q | MatchAt(body, opening, from, p, q)
      ensures LastCandidate(body, from + |opening|, LineEnd(body, from + |opening|)).Some?
    {
      MatchSeenByScan(body, opening, from, p, q);
    }
  }

  /** When `SearchFrom` reports a path, it is the capture of the first match
      at or after `from`. */
  lemma {:induction false} SearchFromFindsFirstMatch(body: string, opening: string, from: nat)
    requires SearchFrom(body, opening, from).Some?
    ensures exists i, p, q ::
      FirstMatchFrom(body, opening, from, i, p, q) && SearchFrom(body, opening, from).value == body[p + 1..q]
    decreases |body| - from
  {
    var k := from + |opening|;
    if body[from..k] == opening && LastCandidate(body, k, LineEnd(body, k)).Some? {
      FirstMatchHere(body, opening, from);
    } else {
      ScanSeesMatchesAt(body, opening, from);
      SearchFromFindsFirstMatch(body, opening, from + 1);
      var i, p, q :| FirstMatchFrom(body, opening, from + 1, i, p, q) &&
        SearchFrom(body, opening, from + 1).value == body[p + 1..q];
      FirstMatchLater(body, opening, from, i, p, q);
    }
  }

  /** When `SearchFrom` reports nothing, no match starts at or after
      `from`. */
  lemma {:induction false} SearchFromMissesNoMatch(body: string, opening: string, from: nat)
    requires SearchFrom(body, opening, from).None?
    ensures forall i, p, q :: from <= i ==> !MatchAt(body, opening, i, p, q)
    decreases |body| - from
  {
    var k := from + |opening|;
    if k <= |body| {
      ScanSeesMatchesAt(body, opening, from);
      SearchFromMissesNoMatch(body, opening, from + 1);
    }
  }

  /** `SearchFrom` reports the first match at or after `from`, and finds none
      only when there is none. */
  lemma SearchFromIsFirstMatch(body: string, opening: string, from: nat)
    ensures var r := SearchFrom(body, opening, from);
      && (r.Some? ==> exists i, p, q :: FirstMatchFrom(body, opening, from, i, p, q) && r.value == body[p + 1..q])
      && (r.None? ==> forall i, p, q :: from <= i ==> !MatchAt(body, opening, i, p, q))
  {
    if SearchFrom(body, opening, from).Some? {
      SearchFromFindsFirstMatch(body, opening, from);
    } else {
      SearchFromMissesNoMatch(body, opening, from);
    }
  }

  /** `Search` reports the match `re.search` reports, and finds none exactly
      when the pattern does not match. */
  lemma SearchIsFirstMatch(body: string, opening: string)
    ensures var r := Search(body, opening);
      && (r.Some? ==> exists i, p, q :: FirstMatchFrom(body, opening, 0, i, p, q) && r.value == body[p + 1..q])
      && (r.None? <==> !Matches(body, opening))
  {
    SearchFromIsFirstMatch(body, opening, 0);
  }

  /** Two indices that both hold the first quote from `k` on are equal. */
  lemma FirstQuoteUnique(body: string, k: int, q: int, q': int)
    requires 0 <= k <= q < |body| && k <= q' < |body|
    requires body[q] == '"' && forall m :: k <= m < q ==> body[m] != '"'
    requires body[q'] == '"' && forall m :: k <= m < q' ==> body[m] != '"'
    ensures q == q'
  {
  }

  /** There is one first match: the start, the end of `.*` and the closing
      quote are all determined. */
  lemma FirstMatchUnique(body: string, opening: string, i: int, p: int, q: int, i': int, p': int, q': int)
    requires FirstMatchFrom(body, opening, 0, i, p, q) && FirstMatchFrom(body, opening, 0, i', p', q')
    ensures i == i' && p == p' && q == q'
  {
    assert MatchAt(body, opening, i, p, q) && MatchAt(body, opening, i', p', q');
    assert i == i' && p == p';
    FirstQuoteUnique(body, p + 3, q, q');
  }

  /** A captured path starts with `v/` and holds no quote. */
  lemma CaptureShape(body: string, opening: string, i: int, p: int, q: int)
    requires MatchAt(body, opening, i, p, q)
    ensures var path := body[p + 1..q];
      IsPrefix("v/", path) && '"' !in path
  {
    var path := body[p + 1..q];
    assert path[0] == 'v' && path[1] == '/';
    assert path[..2] == "v/";
    forall m | 0 <= m < |path| ensures path[m] != '"' {
      assert path[m] == body[p + 1 + m];
    }
  }

  /** A path `Search` reports starts with `v/` and holds no quote. */
  lemma SearchShape(body: string, opening: string)
    ensures var r := Search(body, opening);
      r.Some? ==> IsPrefix("v/", r.value) && '"' !in r.value
  {
    SearchIsFirstMatch(body, opening);
    var r := Search(body, opening);
    if r.Some? {
      var i, p, q :| FirstMatchFrom(body, opening, 0, i, p, q) && r.value == body[p + 1..q];
      CaptureShape(body, opening, i, p, q);
    }
  }

  /** `get_static_js` / `get_static_css` after the fetch: the path is found
      only when the page came back with status 200, the search found a path,
      and that path ends with the asset's file name; otherwise exactly one
      error line says which of the three failed. */
  function Discover(asset: Asset, status: int, body: string): (r: Discovered)
    ensures r.path.Some? <==>
      status == 200 && Search(body, asset.Opening()).Some? &&
      EndsWith(Search(body, asset.Opening()).value, asset.FileName())
    ensures r.path.Some? ==> r.errors == [] && r.path == Search(body, asset.Opening())
    ensures r.path.Some? ==> IsPrefix("v/", r.path.value) && '"' !in r.path.value
    ensures r.path.None? ==> |r.errors| == 1
    ensures status != 200 ==> r.errors == [FailedToGet(asset.Page())]
    ensures status == 200 && Search(body, asset.Opening()).None? ==>
      r.errors == [SourceNotFound(asset.Tag(), asset.Page())]
    ensures status == 200 && Search(body, asset.Opening()).Some? && r.path.None? ==>
      r.errors == [WrongSource(asset.Tag())]
  {
    SearchShape(body, asset.Opening());
    if status != 200 then Discovered(None, [FailedToGet(asset.Page())])
    else
      match Search(body, asset.Opening())
      case None => Discovered(None, [SourceNotFound(asset.Tag(), asset.Page())])
      case Some(path) =>
        if !EndsWith(path, asset.FileName()) then Discovered(None, [WrongSource(asset.Tag())])
        else Discovered(Some(path), [])
  }

  /** In terms of the pattern: a path is found exactly when the status is 200
      and the first match's capture ends with the asset's file name, and it
      is that capture; the source is reported missing exactly when the
      pattern matches nowhere. */
  lemma DiscoverFindsFirstMatch(asset: Asset, status: int, body: string)
    ensures var r := Discover(asset, status, body);
      && (r.path.Some? <==> status == 200 && exists i, p, q ::
            FirstMatchFrom(body, asset.Opening(), 0, i, p, q) && EndsWith(body[p + 1..q], asset.FileName()))
      && (r.path.Some? ==> exists i, p, q ::
            FirstMatchFrom(body, asset.Opening(), 0, i, p, q) && r.path.value == body[p + 1..q])
      && (status == 200 && !Matches(body, asset.Opening()) <==>
            r.errors == [SourceNotFound(asset.Tag(), asset.Page())])
  {
    var opening := asset.Opening();
    SearchIsFirstMatch(body, opening);
    if Search(body, opening).Some? {
      EveryFirstMatchIsFound(body, opening);
    }
  }

  /** When the search finds a path, every first match captures that path. */
  lemma EveryFirstMatchIsFound(body: string, opening: string)
    requires Search(body, opening).Some?
    ensures forall i, p, q :: FirstMatchFrom(body, opening, 0, i, p, q) ==> body[p + 1..q] == Search(body, opening).value
  {
    SearchIsFirstMatch(body, opening);
    var found := Search(body, opening);
    var i, p, q :| FirstMatchFrom(body, opening, 0, i, p, q) && found.value == body[p + 1..q];
    forall i', p', q' | FirstMatchFrom(body, opening, 0, i', p', q')
      ensures body[p' + 1..q'] == found.value
    {
      FirstMatchUnique(body, opening, i, p, q, i', p', q');
    }
  }
}
