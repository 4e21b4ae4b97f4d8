/**
  URL handling shared by both web apps: the scheme normalisation at the top
  of each batch step, and the company name `app.py` derives from the URL's
  host part.
 */
module Urls {
  import opened Text

  const HttpScheme: string := "http://"
  const HttpsScheme: string := "https://"
  const WwwPrefix: string := "www."

  predicate StartsWith(s: string, prefix: string) {
    |prefix| <= |s| && s[..|prefix|] == prefix
  }

  /** `pat` occurs in `s` starting at position `i`. */
  predicate OccursAt(s: string, pat: string, i: int) {
    0 <= i && i + |pat| <= |s| && s[i..i + |pat|] == pat
  }

  /** `pat` occurs somewhere in `s`. */
  predicate Occurs(s: string, pat: string) {
    exists i :: 0 <= i <= |s| && OccursAt(s, pat, i)
  }

  /** The test `raw.startswith(("http://", "https://"))`. */
  predicate HasScheme(u: string) {
    StartsWith(u, HttpScheme) || StartsWith(u, HttpsScheme)
  }

  /** A URL that already names its scheme is used as given; any other string
      is taken to be schemeless and gets `https://` in front. */
  function NormalizeUrl(raw: string): (url: string)
    ensures HasScheme(url)
    ensures HasScheme(raw) ==> url == raw
    ensures !HasScheme(raw) ==> url == HttpsScheme + raw
  {
    if HasScheme(raw) then raw else HttpsScheme + raw
  }

  /** Normalising twice is normalising once. */
  lemma NormalizeIdempotent(raw: string)
    ensures NormalizeUrl(NormalizeUrl(raw)) == NormalizeUrl(raw)
  {
  }

  /** The host part `app.py` reads from a URL: `https://`, `http://` and
      `www.` removed wherever they occur, in that order, then everything from
      the first `/` on dropped. */
  function CompanyName(url: string): (name: string)
    ensures '/' !in name
    ensures StartsWith(HostPath(url), name)
    ensures name == HostPath(url) || HostPath(url)[|name|] == '/'
  {
    Before(HostPath(url), '/')
  }

  function HostPath(url: string): string {
    RemoveAll(RemoveAll(RemoveAll(url, HttpsScheme), HttpScheme), WwwPrefix)
  }

  // ---- the company name of a conventional URL ----

  lemma {:induction false} RemoveAllPrefix(pat: string, s: string)
    requires pat != []
    ensures RemoveAll(pat + s, pat) == RemoveAll(s, pat)
  {
    assert (pat + s)[..|pat|] == pat;
    assert (pat + s)[|pat|..] == s;
  }

  lemma {:induction false} RemoveAllAbsent(s: string, pat: string)
    requires pat != []
    requires !Occurs(s, pat)
    ensures RemoveAll(s, pat) == s
    decreases |s|
  {
    if s != [] {
      assert !OccursAt(s, pat, 0);
      forall i | 0 <= i <= |s[1..]|
        ensures !OccursAt(s[1..], pat, i)
      {
        if i + |pat| <= |s[1..]| {
          assert s[1..][i..i + |pat|] == s[i + 1..i + 1 + |pat|];
          assert !OccursAt(s, pat, i + 1);
        }
      }
      RemoveAllAbsent(s[1..], pat);
    }
  }

  /** No occurrence of `pat` starts in `a` and ends in `b`. */
  predicate NoStraddle(a: string, b: string, pat: string) {
    forall i :: 0 <= i < |a| < i + |pat| <= |a| + |b| ==> !OccursAt(a + b, pat, i)
  }

  lemma {:induction false} RemoveAllConcat(a: string, b: string, pat: string)
    requires pat != []
    requires NoStraddle(a, b, pat)
    ensures RemoveAll(a + b, pat) == RemoveAll(a, pat) + RemoveAll(b, pat)
    decreases |a|
  {
    if a == [] {
      assert a + b == b;
    } else if |a| >= |pat| && a[..|pat|] == pat {
      assert (a + b)[..|pat|] == pat;
      assert (a + b)[|pat|..] == a[|pat|..] + b;
      var a' := a[|pat|..];
      forall i | 0 <= i < |a'| < i + |pat| <= |a'| + |b|
        ensures !OccursAt(a' + b, pat, i)
      {
        assert (a' + b)[i..i + |pat|] == (a + b)[i + |pat|..i + |pat| + |pat|];
        assert !OccursAt(a + b, pat, i + |pat|);
      }
      RemoveAllConcat(a', b, pat);
    } else {
      if |a| >= |pat| {
        assert (a + b)[..|pat|] == a[..|pat|];
      } else if |a + b| >= |pat| {
        assert !OccursAt(a + b, pat, 0);
      }
      assert (a + b)[0] == a[0];
      assert (a + b)[1..] == a[1..] + b;
      var a' := a[1..];
      forall i | 0 <= i < |a'| < i + |pat| <= |a'| + |b|
        ensures !OccursAt(a' + b, pat, i)
      {
        assert (a' + b)[i..i + |pat|] == (a + b)[i + 1..i + 1 + |pat|];
        assert !OccursAt(a + b, pat, i + 1);
      }
      RemoveAllConcat(a', b, pat);
      assert [a[0]] + RemoveAll(a', pat) + RemoveAll(b, pat) == [a[0]] + (RemoveAll(a', pat) + RemoveAll(b, pat));
    }
  }

  /** A string whose first character cannot begin `pat` keeps it. */
  lemma RemoveAllKeepsHead(s: string, pat: string)
    requires pat != [] && s != [] && s[0] != pat[0]
    ensures RemoveAll(s, pat) != [] && RemoveAll(s, pat)[0] == s[0]
  {
    if |s| >= |pat| {
      assert s[..|pat|][0] == s[0];
    }
  }

  /** Every `:` of `a` sits before position `k`. */
  predicate ColonsBefore(a: string, k: nat) {
    forall j :: 0 <= j < |a| && a[j] == ':' ==> j < k
  }

  /** No occurrence of a pattern whose `:` comes at index `k`, with no `/`
      up to there, can straddle into a tail that starts with `/`. */
  lemma NoStraddleAtSlash(a: string, b: string, pat: string, k: nat)
    requires b != [] && b[0] == '/'
    requires k < |pat| && pat[k] == ':'
    requires forall j :: 0 <= j <= k ==> pat[j] != '/'
    requires ColonsBefore(a, k)
    ensures NoStraddle(a, b, pat)
  {
    forall i | 0 <= i < |a| < i + |pat| <= |a| + |b|
      ensures !OccursAt(a + b, pat, i)
    {
      var w := (a + b)[i..i + |pat|];
      var m := |a| - i;
      assert w[m] == b[0];
      if m <= k {
        assert w[m] != pat[m];
      } else {
        assert w[k] == a[i + k];
        assert w[k] != pat[k];
      }
    }
  }

  lemma NoWwwStraddleAtSlash(a: string, b: string)
    requires b != [] && b[0] == '/'
    ensures NoStraddle(a, b, WwwPrefix)
  {
    forall i | 0 <= i < |a| < i + |WwwPrefix| <= |a| + |b|
      ensures !OccursAt(a + b, WwwPrefix, i)
    {
      var w := (a + b)[i..i + |WwwPrefix|];
      assert w[|a| - i] == '/';
    }
  }

  /** A scheme cannot occur where the only `:` characters come too early. */
  lemma NoSchemeBeforeColon(s: string, pat: string, k: nat)
    requires k < |pat| && pat[k] == ':'
    requires ColonsBefore(s, k)
    ensures !Occurs(s, pat)
  {
    forall i | 0 <= i <= |s|
      ensures !OccursAt(s, pat, i)
    {
      if i + |pat| <= |s| {
        assert s[i..i + |pat|][k] == s[i + k];
      }
    }
  }

  /** Removing every pattern from a tail that starts with `/` keeps the `/`. */
  lemma TailKeepsSlash(path: string, pat: string)
    requires pat != [] && pat[0] != '/'
    requires path == [] || path[0] == '/'
    ensures RemoveAll(path, pat) == [] || RemoveAll(path, pat)[0] == '/'
    ensures path == [] ==> RemoveAll(path, pat) == []
  {
    if path != [] {
      RemoveAllKeepsHead(path, pat);
    }
  }

  /** Removing a pattern that contains `:` from `a + path` leaves `a` (free
      of `:`) intact and `path` starting with `/`. */
  lemma StripSchemeFromTail(a: string, path: string, pat: string, k: nat) returns (path': string)
    requires pat != [] && pat[0] != '/' && k < |pat| && pat[k] == ':'
    requires forall j :: 0 <= j <= k ==> pat[j] != '/'
    requires ColonsBefore(a, k) && !Occurs(a, pat)
    requires path == [] || path[0] == '/'
    ensures RemoveAll(a + path, pat) == a + path'
    ensures path' == [] || path'[0] == '/'
  {
    path' := RemoveAll(path, pat);
    TailKeepsSlash(path, pat);
    RemoveAllAbsent(a, pat);
    if path == [] {
      assert a + path == a;
    } else {
      NoStraddleAtSlash(a, path, pat, k);
      RemoveAllConcat(a, path, pat);
    }
  }

  /** The `https://` pass over `a + path`, where `a` has no `:` after
      position `k` of the pattern, leaves `a` and a tail starting with `/`. */
  lemma HttpsPassOfHttps(a: string, path: string) returns (p1: string)
    requires ColonsBefore(a, 0)
    requires path == [] || path[0] == '/'
    ensures RemoveAll(HttpsScheme + a + path, HttpsScheme) == a + p1
    ensures p1 == [] || p1[0] == '/'
  {
    NoSchemeBeforeColon(a, HttpsScheme, 5);
    assert HttpsScheme + a + path == HttpsScheme + (a + path);
    RemoveAllPrefix(HttpsScheme, a + path);
    p1 := StripSchemeFromTail(a, path, HttpsScheme, 5);
  }

  lemma HttpsPassOfHttp(a: string, path: string) returns (p1: string)
    requires ColonsBefore(a, 0)
    requires path == [] || path[0] == '/'
    ensures RemoveAll(HttpScheme + a + path, HttpsScheme) == HttpScheme + a + p1
    ensures p1 == [] || p1[0] == '/'
  {
    var ha := HttpScheme + a;
    assert ColonsBefore(ha, 5) by {
      forall j | 5 <= j < |ha| ensures ha[j] != ':' {
        if j >= |HttpScheme| { assert ha[j] == a[j - |HttpScheme|]; }
      }
    }
    NoSchemeBeforeColon(ha, HttpsScheme, 5);
    p1 := StripSchemeFromTail(ha, path, HttpsScheme, 5);
  }

  lemma HttpPassOfHttp(a: string, p1: string) returns (p2: string)
    requires ColonsBefore(a, 0)
    requires p1 == [] || p1[0] == '/'
    ensures RemoveAll(HttpScheme + a + p1, HttpScheme) == a + p2
    ensures p2 == [] || p2[0] == '/'
  {
    NoSchemeBeforeColon(a, HttpScheme, 4);
    assert HttpScheme + a + p1 == HttpScheme + (a + p1);
    RemoveAllPrefix(HttpScheme, a + p1);
    p2 := StripSchemeFromTail(a, p1, HttpScheme, 4);
  }

  /** The two scheme passes over `scheme + a + path`, where `a` has no `:`,
      leave `a` followed by a tail that still starts with `/`. */
  lemma SchemePasses(scheme: string, a: string, path: string) returns (p2: string)
    requires scheme == HttpsScheme || scheme == HttpScheme || scheme == []
    requires ColonsBefore(a, 0)
    requires path == [] || path[0] == '/'
    ensures RemoveAll(RemoveAll(scheme + a + path, HttpsScheme), HttpScheme) == a + p2
    ensures p2 == [] || p2[0] == '/'
  {
    NoSchemeBeforeColon(a, HttpsScheme, 5);
    NoSchemeBeforeColon(a, HttpScheme, 4);
    var p1: string;
    if scheme == HttpsScheme {
      p1 := HttpsPassOfHttps(a, path);
      p2 := StripSchemeFromTail(a, p1, HttpScheme, 4);
    } else if scheme == HttpScheme {
      p1 := HttpsPassOfHttp(a, path);
      p2 := HttpPassOfHttp(a, p1);
    } else {
      assert scheme + a + path == a + path;
      p1 := StripSchemeFromTail(a, path, HttpsScheme, 5);
      p2 := StripSchemeFromTail(a, p1, HttpScheme, 4);
    }
  }

  /** The `www.` pass over `www + host + tail` leaves the host and a tail
      that still starts with `/`. */
  lemma WwwPass(www: string, host: string, tail: string) returns (tail': string)
    requires www == WwwPrefix || www == []
    requires !Occurs(host, WwwPrefix)
    requires tail == [] || tail[0] == '/'
    ensures RemoveAll(www + host + tail, WwwPrefix) == host + tail'
    ensures tail' == [] || tail'[0] == '/'
  {
    tail' := RemoveAll(tail, WwwPrefix);
    TailKeepsSlash(tail, WwwPrefix);
    RemoveAllAbsent(host, WwwPrefix);
    if www == WwwPrefix {
      assert www + host + tail == WwwPrefix + (host + tail);
      RemoveAllPrefix(WwwPrefix, host + tail);
    } else {
      assert www + host + tail == host + tail;
    }
    if tail == [] {
      assert host + tail == host;
    } else {
      NoWwwStraddleAtSlash(host, tail);
      RemoveAllConcat(host, tail, WwwPrefix);
    }
  }

  /** For a conventional URL — an optional scheme, an optional `www.`, a host
      without `/`, `:` or `www.` in it, and a path that is empty or starts
      with `/` — the company name is exactly the host. */
  lemma CompanyOfConventionalUrl(scheme: string, www: string, host: string, path: string)
    requires scheme == HttpsScheme || scheme == HttpScheme || scheme == []
    requires www == WwwPrefix || www == []
    requires '/' !in host && ':' !in host && !Occurs(host, WwwPrefix)
    requires path == [] || path[0] == '/'
    ensures CompanyName(scheme + www + host + path) == host
  {
    var a := www + host;
    assert ColonsBefore(a, 0) by {
      forall j | 0 <= j < |a| ensures a[j] != ':' {
        if j >= |www| { assert a[j] == host[j - |www|]; }
      }
    }
    assert scheme + www + host + path == scheme + a + path;
    var p2 := SchemePasses(scheme, a, path);
    var p3 := WwwPass(www, host, p2);
    assert HostPath(scheme + www + host + path) == host + p3;
    BeforeAtSlash(host, p3);
  }

  lemma {:induction false} BeforeAtSlash(host: string, tail: string)
    requires '/' !in host
    requires tail == [] || tail[0] == '/'
    ensures Before(host + tail, '/') == host
    decreases |host|
  {
    if host == [] {
      assert host + tail == tail;
    } else {
      assert (host + tail)[1..] == host[1..] + tail;
      BeforeAtSlash(host[1..], tail);
    }
  }
}
