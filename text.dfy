/** String operations the checker script relies on: Python's `str.replace`,
    `str.endswith`, and the substring relation used to state what a rewrite
    leaves behind. Strings are sequences of characters. */
module Text {

  /** `a` is a prefix of `b`. */
  predicate IsPrefix(a: string, b: string) {
    |a| <= |b| && b[..|a|] == a
  }

  /** One of the two strings is a prefix of the other: they agree on every
      position both of them have. */
  predicate Compatible(a: string, b: string) {
    IsPrefix(a, b) || IsPrefix(b, a)
  }

  /** Python's `s.endswith(suffix)`. */
  predicate EndsWith(s: string, suffix: string) {
    |suffix| <= |s| && s[|s| - |suffix|..] == suffix
  }

  /** `pat` occurs in `s` starting at index `i`. */
  predicate OccursAt(pat: string, s: string, i: int) {
    0 <= i && i + |pat| <= |s| && s[i..i + |pat|] == pat
  }

  /** Python's `pat in s`. */
  predicate Occurs(pat: string, s: string) {
    exists i | 0 <= i <= |s| - |pat| :: OccursAt(pat, s, i)
  }

  /** Python's `s.replace(pat, rep)` for a non-empty `pat`: the occurrences of
      `pat` are found from left to right, do not overlap, and each is replaced
      by `rep`; the text between them is copied unchanged. */
  function Replace(s: string, pat: string, rep: string): (r: string)
    requires |pat| > 0
    ensures |pat| == |rep| ==> |r| == |s|
    decreases |s|
  {
    if |s| < |pat| then s
    else if s[..|pat|] == pat then rep + Replace(s[|pat|..], pat, rep)
    else [s[0]] + Replace(s[1..], pat, rep)
  }

  /** No part of `pat` can be completed by `rep`, and no part of `rep` can
      start `pat`: a replacement never creates a new occurrence of `pat`
      across its own boundary. */
  ghost predicate NoOverlap(pat: string, rep: string) {
    && (forall k :: 0 < k < |pat| ==> !Compatible(pat[k..], rep))
    && (forall d :: 0 <= d < |rep| ==> !Compatible(rep[d..], pat))
  }

  /** `a[i..]` and `b[j..]` agree on every position both of them have,
      checked character by character. */
  predicate AgreeFrom(a: string, i: nat, b: string, j: nat)
    decreases |a| - i
  {
    i >= |a| || j >= |b| || (a[i] == b[j] && AgreeFrom(a, i + 1, b, j + 1))
  }

  lemma {:induction false} AgreeFromIsCompatible(a: string, i: nat, b: string, j: nat)
    requires i <= |a| && j <= |b|
    ensures AgreeFrom(a, i, b, j) <==> Compatible(a[i..], b[j..])
    decreases |a| - i
  {
    if i < |a| && j < |b| {
      AgreeFromIsCompatible(a, i + 1, b, j + 1);
      assert a[i..] == [a[i]] + a[i + 1..];
      assert b[j..] == [b[j]] + b[j + 1..];
    }
  }

  /** Computable form of `NoOverlap`, checked from offset `k` on. */
  predicate NoOverlapFrom(pat: string, rep: string, k: nat)
    decreases |pat| + |rep| - k
  {
    (0 < k < |pat| ==> !AgreeFrom(pat, k, rep, 0)) &&
    (k < |rep| ==> !AgreeFrom(rep, k, pat, 0)) &&
    (k < |pat| || k < |rep| ==> NoOverlapFrom(pat, rep, k + 1))
  }

  lemma {:induction false} NoOverlapFromSound(pat: string, rep: string, k: nat)
    requires NoOverlapFrom(pat, rep, k)
    ensures forall j :: k <= j && 0 < j < |pat| ==> !Compatible(pat[j..], rep)
    ensures forall j :: k <= j < |rep| ==> !Compatible(rep[j..], pat)
    decreases |pat| + |rep| - k
  {
    if k < |pat| || k < |rep| {
      NoOverlapFromSound(pat, rep, k + 1);
      if 0 < k < |pat| {
        AgreeFromIsCompatible(pat, k, rep, 0);
        assert rep[0..] == rep;
      }
      if k < |rep| {
        AgreeFromIsCompatible(rep, k, pat, 0);
        assert pat[0..] == pat;
      }
    }
  }

  /** `NoOverlap` of two concrete strings, decided by computation. */
  lemma NoOverlapByComputation(pat: string, rep: string)
    requires NoOverlapFrom(pat, rep, 0)
    ensures NoOverlap(pat, rep)
  {
    NoOverlapFromSound(pat, rep, 0);
  }

  /** No character of `a` occurs in `b`. */
  ghost predicate NoCommonChar(a: string, b: string) {
    forall i, j :: 0 <= i < |a| && 0 <= j < |b| ==> a[i] != b[j]
  }

  predicate IsLowerOrDot(c: char) {
    ('a' <= c <= 'z') || c == '.'
  }

  predicate IsUpperOrUnderscore(c: char) {
    ('A' <= c <= 'Z') || c == '_'
  }

  /** Every character of `s` from index `i` on is a lower-case letter or a dot. */
  predicate LowerOrDotFrom(s: string, i: nat)
    decreases |s| - i
  {
    i >= |s| || (IsLowerOrDot(s[i]) && LowerOrDotFrom(s, i + 1))
  }

  /** Every character of `s` from index `i` on is an upper-case letter or an
      underscore. */
  predicate UpperOrUnderscoreFrom(s: string, i: nat)
    decreases |s| - i
  {
    i >= |s| || (IsUpperOrUnderscore(s[i]) && UpperOrUnderscoreFrom(s, i + 1))
  }

  lemma {:induction false} LowerOrDotFromAt(s: string, i: nat, k: nat)
    requires LowerOrDotFrom(s, i) && i <= k < |s|
    ensures IsLowerOrDot(s[k])
    decreases k - i
  {
    if i < k {
      LowerOrDotFromAt(s, i + 1, k);
    }
  }

  lemma {:induction false} UpperOrUnderscoreFromAt(s: string, i: nat, k: nat)
    requires UpperOrUnderscoreFrom(s, i) && i <= k < |s|
    ensures IsUpperOrUnderscore(s[k])
    decreases k - i
  {
    if i < k {
      UpperOrUnderscoreFromAt(s, i + 1, k);
    }
  }

  /** A lower-case name and an upper-case token have no character in common. */
  lemma NoCommonCharByCase(a: string, b: string)
    requires LowerOrDotFrom(a, 0) && UpperOrUnderscoreFrom(b, 0)
    ensures NoCommonChar(a, b)
  {
    forall i, j | 0 <= i < |a| && 0 <= j < |b| ensures a[i] != b[j] {
      LowerOrDotFromAt(a, 0, i);
      UpperOrUnderscoreFromAt(b, 0, j);
    }
  }

  /** An occurrence at index `j` of `b` is an occurrence at index `|a| + j`
      of `a + b`. */
  lemma OccursAtShift(q: string, a: string, b: string, j: int)
    requires OccursAt(q, b, j)
    ensures OccursAt(q, a + b, |a| + j)
  {
    assert (a + b)[|a| + j..|a| + j + |q|] == b[j..j + |q|];
  }

  /** A prefix of `r + t` is compatible with `r`. */
  lemma PrefixOfConcat(x: string, r: string, t: string)
    requires IsPrefix(x, r + t)
    ensures Compatible(x, r)
  {
    if |x| <= |r| {
      assert (r + t)[..|x|] == r[..|x|];
    } else {
      assert x[..|r|] == (r + t)[..|r|] == r;
    }
  }

  /** In `u + rep + t`, an occurrence of `q` that starts before the end of
      `rep` either lies inside `u`, or has a tail compatible with `rep`, or
      starts inside `rep` at a point compatible with `q`. */
  lemma OccurrenceNearReplacement(q: string, rep: string, u: string, t: string, i: int)
    ensures OccursAt(q, u + rep + t, i) && i < |u| + |rep| ==>
      || i + |q| <= |u|
      || (i < |u| && Compatible(q[|u| - i..], rep))
      || (|u| <= i && Compatible(rep[i - |u|..], q))
  {
    var w := u + rep + t;
    if OccursAt(q, w, i) && i < |u| + |rep| {
      if i < |u| && i + |q| > |u| {
        var k := |u| - i;
        assert q[k..] == w[|u|..i + |q|];
        assert w[|u|..] == rep + t;
        PrefixOfConcat(q[k..], rep, t);
      } else if i >= |u| {
        var d := i - |u|;
        assert w[i..] == rep[d..] + t;
        PrefixOfConcat(q, rep[d..], t);
      }
    }
  }

  /** In `u + rep + t`, no occurrence of `q` starts before the end of `rep`
      when none starts in `u` that `u` holds entirely, and `rep` cannot
      complete or start `q`. */
  lemma NoOccurrenceUpToReplacement(q: string, rep: string, u: string, t: string, x: string, i: int)
    requires |q| > 0 && NoOverlap(q, rep) && 0 <= i < |u| + |rep|
    requires i + |q| <= |u| ==> !OccursAt(q, u + x, i)
    ensures !OccursAt(q, u + rep + t, i)
  {
    OccurrenceNearReplacement(q, rep, u, t, i);
    if i + |q| <= |u| {
      assert (u + rep + t)[i..i + |q|] == u[i..i + |q|] == (u + x)[i..i + |q|];
    } else if i < |u| {
      assert !Compatible(q[|u| - i..], rep);
    } else {
      assert !Compatible(rep[i - |u|..], q);
    }
  }

  /** An occurrence of `q` after `rep` in `u + rep + t` is one after `pat` in
      `u + pat + t`. */
  lemma OccurrenceAfterReplacement(q: string, pat: string, rep: string, u: string, t: string, i: int)
    requires |u| + |rep| <= i
    requires OccursAt(q, u + rep + t, i)
    ensures OccursAt(q, u + pat + t, i - |rep| + |pat|)
  {
    var j := i - |u| - |rep|;
    assert (u + rep + t)[i..i + |q|] == t[j..j + |q|];
    assert (u + pat + t)[|u| + |pat| + j..|u| + |pat| + j + |q|] == t[j..j + |q|];
  }

  /** Replacing leaves a string with no occurrence of `pat` unchanged. */
  lemma {:induction false} ReplaceAbsent(s: string, pat: string, rep: string)
    requires |pat| > 0 && !Occurs(pat, s)
    ensures Replace(s, pat, rep) == s
    decreases |s|
  {
    if |s| >= |pat| {
      assert !OccursAt(pat, s, 0);
      forall i | 0 <= i <= |s[1..]| - |pat| ensures !OccursAt(pat, s[1..], i) {
        assert s[1..][i..i + |pat|] == s[i + 1..i + 1 + |pat|];
        assert !OccursAt(pat, s, i + 1);
      }
      ReplaceAbsent(s[1..], pat, rep);
      assert [s[0]] + s[1..] == s;
    }
  }

  /** A string that lacks one of the characters of `pat` holds no
      occurrence of `pat`. */
  lemma AbsentByChar(pat: string, s: string, k: int)
    requires 0 <= k < |pat| && forall j :: 0 <= j < |s| ==> s[j] != pat[k]
    ensures !Occurs(pat, s)
  {
    forall i | 0 <= i <= |s| - |pat| ensures !OccursAt(pat, s, i) {
      assert s[i..i + |pat|][k] == s[i + k];
    }
  }

  /** One step of `ReplaceSkipsPrefix`: a first character that cannot start
      `pat` is copied. */
  lemma ReplaceSkipsFirst(u: string, t: string, pat: string, rep: string)
    requires |pat| > 0 && |u| > 0 && u[0] != pat[0] && |u + t| >= |pat|
    requires Replace(u[1..] + t, pat, rep) == u[1..] + Replace(t, pat, rep)
    ensures Replace(u + t, pat, rep) == u + Replace(t, pat, rep)
  {
    var s := u + t;
    calc {
      Replace(s, pat, rep);
    == { assert s[..|pat|][0] != pat[0]; }
      [s[0]] + Replace(s[1..], pat, rep);
    == { assert s[1..] == u[1..] + t; }
      [u[0]] + (u[1..] + Replace(t, pat, rep));
    == { assert [u[0]] + u[1..] == u; }
      u + Replace(t, pat, rep);
    }
  }

  /** `Replace` copies a prefix `u` in which `pat` cannot start, because the
      first character of `pat` does not occur in `u`. */
  lemma {:induction false} ReplaceSkipsPrefix(u: string, t: string, pat: string, rep: string)
    requires |pat| > 0 && forall j :: 0 <= j < |u| ==> u[j] != pat[0]
    ensures Replace(u + t, pat, rep) == u + Replace(t, pat, rep)
    decreases |u|
  {
    if u == [] {
      assert u + t == t;
    } else if |u + t| < |pat| {
      assert Replace(t, pat, rep) == t;
    } else {
      ReplaceSkipsPrefix(u[1..], t, pat, rep);
      ReplaceSkipsFirst(u, t, pat, rep);
    }
  }

  /** `Replace` on text that starts with `pat`. */
  lemma ReplaceAtStart(pat: string, t: string, rep: string)
    requires |pat| > 0
    ensures Replace(pat + t, pat, rep) == rep + Replace(t, pat, rep)
  {
    assert (pat + t)[..|pat|] == pat;
    assert (pat + t)[|pat|..] == t;
  }

  /** `Replace` on text holding a single occurrence of `pat`, behind a
      prefix in which `pat` cannot start. */
  lemma ReplaceSingle(prefix: string, pat: string, rep: string, rest: string)
    requires |pat| > 0 && forall j :: 0 <= j < |prefix| ==> prefix[j] != pat[0]
    requires !Occurs(pat, rest)
    ensures Replace(prefix + pat + rest, pat, rep) == prefix + rep + rest
  {
    assert prefix + pat + rest == prefix + (pat + rest);
    ReplaceSkipsPrefix(prefix, pat + rest, pat, rep);
    ReplaceAtStart(pat, rest, rep);
    ReplaceAbsent(rest, pat, rep);
    assert prefix + (rep + rest) == prefix + rep + rest;
  }

  /** `Replace` on text that starts with `pat`, behind scanned text `u`. */
  lemma ReplaceAtMatch(u: string, s: string, pat: string, rep: string)
    requires 0 < |pat| <= |s| && s[..|pat|] == pat
    ensures u + s == u + pat + s[|pat|..]
    ensures u + Replace(s, pat, rep) == (u + rep) + Replace(s[|pat|..], pat, rep)
  {
    assert s == pat + s[|pat|..];
  }

  /** `Replace` on text that does not start with `pat`, behind scanned text
      `u`. */
  lemma ReplaceAtMismatch(u: string, s: string, pat: string, rep: string)
    requires 0 < |pat| <= |s| && s[..|pat|] != pat
    ensures u + s == (u + [s[0]]) + s[1..]
    ensures u + Replace(s, pat, rep) == (u + [s[0]]) + Replace(s[1..], pat, rep)
  {
    assert s == [s[0]] + s[1..];
  }

  /** Past a replaced occurrence, the scanned text `u + rep` holds no start
      of `pat` when `u` held none. */
  lemma NoStartUpToReplacement(pat: string, rep: string, u: string, t: string)
    requires |pat| > 0 && NoOverlap(pat, rep)
    requires forall i :: 0 <= i < |u| ==> !OccursAt(pat, u + pat + t, i)
    ensures forall i :: 0 <= i < |u + rep| ==> !OccursAt(pat, u + rep + t, i)
  {
    assert u + (pat + t) == u + pat + t;
    forall i | 0 <= i < |u + rep| ensures !OccursAt(pat, u + rep + t, i) {
      NoOccurrenceUpToReplacement(pat, rep, u, t, pat + t, i);
    }
  }

  /** Past a character where `pat` does not start, the scanned text
      `u + [s[0]]` holds no start of `pat` when `u` held none. */
  lemma NoStartPastMismatch(pat: string, u: string, s: string)
    requires 0 < |pat| <= |s| && s[..|pat|] != pat
    requires forall i :: 0 <= i < |u| ==> !OccursAt(pat, u + s, i)
    ensures forall i :: 0 <= i < |u| + 1 ==> !OccursAt(pat, (u + [s[0]]) + s[1..], i)
  {
    assert (u + [s[0]]) + s[1..] == u + s;
    assert (u + s)[|u|..|u| + |pat|] == s[..|pat|];
  }

  /** The scan that `Replace` performs leaves no occurrence of `pat` behind,
      provided none starts in the already-scanned text `u` and `rep` cannot
      complete or start one. */
  lemma {:induction false} ReplaceRemovesFrom(pat: string, rep: string, u: string, s: string)
    requires |pat| > 0 && NoOverlap(pat, rep)
    requires forall i :: 0 <= i < |u| ==> !OccursAt(pat, u + s, i)
    ensures !Occurs(pat, u + Replace(s, pat, rep))
    decreases |s|
  {
    if |s| < |pat| {
    } else if s[..|pat|] == pat {
      var t := s[|pat|..];
      ReplaceAtMatch(u, s, pat, rep);
      NoStartUpToReplacement(pat, rep, u, t);
      ReplaceRemovesFrom(pat, rep, u + rep, t);
    } else {
      ReplaceAtMismatch(u, s, pat, rep);
      NoStartPastMismatch(pat, u, s);
      ReplaceRemovesFrom(pat, rep, u + [s[0]], s[1..]);
    }
  }

  /** After `s.replace(pat, rep)`, `pat` no longer occurs, when `rep` cannot
      complete or start an occurrence of `pat`. */
  lemma ReplaceRemoves(s: string, pat: string, rep: string)
    requires |pat| > 0 && NoOverlap(pat, rep)
    ensures !Occurs(pat, Replace(s, pat, rep))
  {
    ReplaceRemovesFrom(pat, rep, [], s);
    assert [] + s == s;
    assert [] + Replace(s, pat, rep) == Replace(s, pat, rep);
  }

  /** Putting `rep` in place of one occurrence of `pat` does not create an
      occurrence of `q` that `rep` cannot complete or start. */
  lemma ReplacementKeepsAbsent(q: string, pat: string, rep: string, u: string, t: string)
    requires |q| > 0 && NoOverlap(q, rep) && !Occurs(q, u + pat + t)
    ensures !Occurs(q, u + rep + t)
  {
    assert u + (pat + t) == u + pat + t;
    forall i | 0 <= i <= |u + rep + t| - |q| ensures !OccursAt(q, u + rep + t, i) {
      if i < |u| + |rep| {
        NoOccurrenceUpToReplacement(q, rep, u, t, pat + t, i);
      } else if OccursAt(q, u + rep + t, i) {
        OccurrenceAfterReplacement(q, pat, rep, u, t, i);
      }
    }
  }

  /** Replacing `pat` does not introduce a string `q` that `rep` cannot
      complete or start, scanning from the already-scanned text `u`. */
  lemma {:induction false} ReplaceKeepsAbsentFrom(q: string, pat: string, rep: string, u: string, s: string)
    requires |pat| > 0 && |q| > 0 && NoOverlap(q, rep)
    requires !Occurs(q, u + s)
    ensures !Occurs(q, u + Replace(s, pat, rep))
    decreases |s|
  {
    if |s| < |pat| {
    } else if s[..|pat|] == pat {
      var t := s[|pat|..];
      ReplaceAtMatch(u, s, pat, rep);
      ReplacementKeepsAbsent(q, pat, rep, u, t);
      ReplaceKeepsAbsentFrom(q, pat, rep, u + rep, t);
    } else {
      ReplaceAtMismatch(u, s, pat, rep);
      ReplaceKeepsAbsentFrom(q, pat, rep, u + [s[0]], s[1..]);
    }
  }

  /** `s.replace(pat, rep)` contains no `q` if `s` did not and `rep` cannot
      complete or start an occurrence of `q`. */
  lemma ReplaceKeepsAbsent(s: string, q: string, pat: string, rep: string)
    requires |pat| > 0 && |q| > 0 && NoOverlap(q, rep) && !Occurs(q, s)
    ensures !Occurs(q, Replace(s, pat, rep))
  {
    assert [] + s == s;
    ReplaceKeepsAbsentFrom(q, pat, rep, [], s);
    assert [] + Replace(s, pat, rep) == Replace(s, pat, rep);
  }

  /** A prefix sharing no character with `pat` survives replacing `pat`. */
  lemma {:induction false} ReplaceKeepsPrefix(h: string, s: string, pat: string, rep: string)
    requires |pat| > 0 && IsPrefix(h, s) && NoCommonChar(h, pat)
    ensures IsPrefix(h, Replace(s, pat, rep))
    decreases |s|
  {
    if |h| > 0 && |s| >= |pat| {
      assert s[..|pat|][0] == h[0] != pat[0];
      assert NoCommonChar(h[1..], pat) by {
        forall i, j | 0 <= i < |h| - 1 && 0 <= j < |pat| ensures h[1..][i] != pat[j] {
          assert h[1..][i] == h[i + 1];
        }
      }
      assert IsPrefix(h[1..], s[1..]);
      ReplaceKeepsPrefix(h[1..], s[1..], pat, rep);
      assert h == [h[0]] + h[1..];
    }
  }

  /** An occurrence of `h` sharing no character with `pat` survives replacing
      `pat`: the replacement never touches it. */
  lemma {:induction false} ReplaceKeepsOccurrence(h: string, s: string, pat: string, rep: string, i: int)
    requires |pat| > 0 && |h| > 0 && NoCommonChar(h, pat) && OccursAt(h, s, i)
    ensures Occurs(h, Replace(s, pat, rep))
    decreases |s|
  {
    var r := Replace(s, pat, rep);
    if i == 0 {
      ReplaceKeepsPrefix(h, s, pat, rep);
      assert OccursAt(h, r, 0);
    } else if |s| < |pat| {
      assert OccursAt(h, r, i);
    } else if s[..|pat|] == pat {
      var t := s[|pat|..];
      assert i >= |pat| by {
        assert s[i] == h[0];
        assert forall k :: 0 <= k < |pat| ==> s[k] == pat[k] != h[0];
      }
      assert t[i - |pat|..i - |pat| + |h|] == s[i..i + |h|];
      ReplaceKeepsOccurrence(h, t, pat, rep, i - |pat|);
      var j :| 0 <= j <= |Replace(t, pat, rep)| - |h| && OccursAt(h, Replace(t, pat, rep), j);
      OccursAtShift(h, rep, Replace(t, pat, rep), j);
    } else {
      assert s[1..][i - 1..i - 1 + |h|] == s[i..i + |h|];
      ReplaceKeepsOccurrence(h, s[1..], pat, rep, i - 1);
      var j :| 0 <= j <= |Replace(s[1..], pat, rep)| - |h| && OccursAt(h, Replace(s[1..], pat, rep), j);
      OccursAtShift(h, [s[0]], Replace(s[1..], pat, rep), j);
    }
  }
}
