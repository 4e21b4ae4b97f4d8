/**
  Character classes and the few string operations of Python's `str` that the
  result pipeline relies on: `strip()`, `"sep".join(...)`, `replace(pat, "")`
  and `split("/")[0]`.
 */
module Text {

  /** Whitespace as Python's `str.isspace()` and the `\s` class of `re`
      (Unicode patterns) see it. */
  predicate IsSpace(c: char) {
    || c == ' ' || c == '\t' || c == '\n' || c == '\r'
    || c == '\U{000B}' || c == '\U{000C}'
    || ('\U{001C}' <= c <= '\U{001F}')
    || c == '\U{0085}' || c == '\U{00A0}' || c == '\U{1680}'
    || ('\U{2000}' <= c <= '\U{200A}')
    || c == '\U{2028}' || c == '\U{2029}' || c == '\U{202F}'
    || c == '\U{205F}' || c == '\U{3000}'
  }

  /** The decimal digits `\d` matches (ASCII only in this model). */
  predicate IsDigit(c: char) {
    '0' <= c <= '9'
  }

  predicate IsAsciiLetter(c: char) {
    ('a' <= c <= 'z') || ('A' <= c <= 'Z')
  }

  /** The word characters `\w` matches (ASCII only in this model). */
  predicate IsWordChar(c: char) {
    IsAsciiLetter(c) || IsDigit(c) || c == '_'
  }

  /** `s[lo..hi]` is all whitespace. */
  predicate SpacesIn(s: string, lo: nat, hi: nat)
    requires lo <= hi <= |s|
  {
    forall k :: lo <= k < hi ==> IsSpace(s[k])
  }

  /** `s[lo..hi]` is all decimal digits. */
  predicate DigitsIn(s: string, lo: nat, hi: nat)
    requires lo <= hi <= |s|
  {
    forall k :: lo <= k < hi ==> IsDigit(s[k])
  }

  /** No whitespace at either end: what `strip()` leaves behind. */
  predicate Stripped(s: string) {
    s == [] || (!IsSpace(s[0]) && !IsSpace(s[|s| - 1]))
  }

  /** End of the whitespace run starting at `i`. */
  function SkipSpaces(s: string, i: nat): (j: nat)
    requires i <= |s|
    ensures i <= j <= |s|
    ensures SpacesIn(s, i, j)
    ensures j == |s| || !IsSpace(s[j])
    decreases |s| - i
  {
    if i < |s| && IsSpace(s[i]) then SkipSpaces(s, i + 1) else i
  }

  /** Start of the whitespace run that ends at `j`, going no further back
      than `lo`. */
  function SkipSpacesBack(s: string, lo: nat, j: nat): (i: nat)
    requires lo <= j <= |s|
    ensures lo <= i <= j
    ensures SpacesIn(s, i, j)
    ensures i == lo || !IsSpace(s[i - 1])
    decreases j
  {
    if lo < j && IsSpace(s[j - 1]) then SkipSpacesBack(s, lo, j - 1) else j
  }

  /** `s.strip()`: the result sits inside `s` between two all-whitespace
      margins and has no whitespace at either end. */
  function Strip(s: string): (r: string)
    ensures Stripped(r)
    ensures forall c :: c in r ==> c in s
    ensures exists i, j :: 0 <= i <= j <= |s| && SpacesIn(s, 0, i) && SpacesIn(s, j, |s|) && r == s[i..j]
  {
    var i := SkipSpaces(s, 0);
    var j := SkipSpacesBack(s, i, |s|);
    assert SpacesIn(s, j, |s|);
    assert i < j ==> s[i..j][0] == s[i] && s[i..j][j - i - 1] == s[j - 1];
    s[i..j]
  }

  /** The whitespace run from `i` ends exactly at the first non-space. */
  lemma {:induction false} SkipSpacesTo(s: string, i: nat, j: nat)
    requires i <= j <= |s| && SpacesIn(s, i, j) && (j == |s| || !IsSpace(s[j]))
    ensures SkipSpaces(s, i) == j
    decreases j - i
  {
    if i < j {
      SkipSpacesTo(s, i + 1, j);
    }
  }

  /** The whitespace run back from `j` ends exactly at the last non-space. */
  lemma {:induction false} SkipSpacesBackTo(s: string, lo: nat, i: nat, j: nat)
    requires lo <= i <= j <= |s| && SpacesIn(s, i, j) && (i == lo || !IsSpace(s[i - 1]))
    ensures SkipSpacesBack(s, lo, j) == i
    decreases j - i
  {
    if i < j {
      SkipSpacesBackTo(s, lo, i, j - 1);
    }
  }

  /** The characterisation of `strip()`: for any split of a string into a
      whitespace margin, a stripped middle and a whitespace margin, the
      middle is what `strip()` returns. */
  lemma StripOfMargins(pre: string, mid: string, post: string)
    requires SpacesIn(pre, 0, |pre|) && SpacesIn(post, 0, |post|) && Stripped(mid)
    ensures Strip(pre + mid + post) == mid
  {
    var s := pre + mid + post;
    var i, j := |pre|, |pre| + |mid|;
    assert s[i..j] == mid;
    if mid == [] {
      assert SpacesIn(s, 0, |s|);
      SkipSpacesTo(s, 0, |s|);
      SkipSpacesBackTo(s, |s|, |s|, |s|);
    } else {
      assert s[i] == mid[0] && s[j - 1] == mid[|mid| - 1];
      SkipSpacesTo(s, 0, i);
      SkipSpacesBackTo(s, i, j, |s|);
    }
  }

  /** A string that already has no outer whitespace is left alone. */
  lemma StripOfStripped(s: string)
    requires Stripped(s)
    ensures Strip(s) == s
  {
    StripOfMargins([], s, []);
    assert [] + s + [] == s;
  }

  /** `strip()` is idempotent. */
  lemma StripIdempotent(s: string)
    ensures Strip(Strip(s)) == Strip(s)
  {
    StripOfStripped(Strip(s));
  }

  /** `[x.strip() for x in xs if x.strip()]`: the stripped items that are
      not blank, in order. Both apps filter this way: the `u` query values of
      the `/stream` route and the texts of the result containers. */
  function NonBlank(xs: seq<string>): (r: seq<string>)
    ensures |r| <= |xs|
    ensures forall i :: 0 <= i < |r| ==> r[i] != [] && Stripped(r[i])
    ensures r == [] <==> forall i :: 0 <= i < |xs| ==> Strip(xs[i]) == []
  {
    if xs == [] then []
    else
      var rest := NonBlank(xs[1..]);
      assert forall i :: 1 <= i < |xs| ==> xs[i] == xs[1..][i - 1];
      if Strip(xs[0]) == [] then rest else [Strip(xs[0])] + rest
  }

  /** The filter treats each item on its own: filtering a concatenation
      concatenates the filtered parts. */
  lemma {:induction false} NonBlankConcat(a: seq<string>, b: seq<string>)
    ensures NonBlank(a + b) == NonBlank(a) + NonBlank(b)
  {
    if a == [] {
      assert a + b == b;
    } else {
      assert (a + b)[0] == a[0];
      assert (a + b)[1..] == a[1..] + b;
      NonBlankConcat(a[1..], b);
    }
  }

  /** What a single item contributes: its stripped text, or nothing when it
      is blank. */
  lemma NonBlankSingle(x: string)
    ensures NonBlank([x]) == (if Strip(x) == [] then [] else [Strip(x)])
  {
    assert [x][1..] == [];
  }

  /** `sep.join(parts)`. */
  function Join(parts: seq<string>, sep: string): string
  {
    if |parts| == 0 then []
    else if |parts| == 1 then parts[0]
    else parts[0] + sep + Join(parts[1..], sep)
  }

  /** Joining non-empty stripped parts yields a stripped string, so the
      `.strip()` applied after a join changes nothing. */
  lemma {:induction false} JoinOfStrippedParts(parts: seq<string>, sep: string)
    requires |parts| > 0
    requires forall i :: 0 <= i < |parts| ==> parts[i] != [] && Stripped(parts[i])
    ensures Join(parts, sep) != []
    ensures Stripped(Join(parts, sep))
    ensures Join(parts, sep)[0] == parts[0][0]
    ensures Join(parts, sep)[|Join(parts, sep)| - 1] == parts[|parts| - 1][|parts[|parts| - 1]| - 1]
  {
    if |parts| > 1 {
      JoinOfStrippedParts(parts[1..], sep);
      var rest := Join(parts[1..], sep);
      assert Join(parts, sep) == parts[0] + sep + rest;
    }
  }

  /** `s.replace(pat, "")`: occurrences are removed left to right and never
      overlap, in a single pass. */
  function RemoveAll(s: string, pat: string): (r: string)
    requires pat != []
    ensures |r| <= |s|
    decreases |s|
  {
    if |s| >= |pat| && s[..|pat|] == pat then RemoveAll(s[|pat|..], pat)
    else if s == [] then []
    else [s[0]] + RemoveAll(s[1..], pat)
  }

  /** `s.split(c)[0]`: everything before the first `c`. */
  function Before(s: string, c: char): (r: string)
    ensures c !in r
    ensures |r| <= |s| && r == s[..|r|]
    ensures |r| == |s| || s[|r|] == c
  {
    if s == [] || s[0] == c then [] else [s[0]] + Before(s[1..], c)
  }
}
