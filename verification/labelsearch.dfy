/**
  The three label-keyed regular expressions of `app_complete.py`, searched
  with `re.search` for one literal label `L`:

    score pattern        L\s*[:\-]?\s*(\d{1,3})        flags re.I
    single-line pattern  L\s*[:\-]?\s*([^\n]+)          flags re.I
    block pattern        L\s*[:\-]?\s*(.+?)(?:\n\s*\n|\n[A-Z][^\n]{0,60}:\s|$)
                                                       flags re.I | re.S

  All three are a label followed by the same prefix `\s*[:\-]?\s*` and a
  group. A way of matching the part after the label is a `Split`: where the
  first `\s*` ends, where the optional separator ends, where the group starts
  and where it ends. Python's backtracking matcher tries greedy choices from
  longest to shortest and lazy ones from shortest to longest, left to right,
  so the match it reports is the split that comes first in that order
  (`Prefers`). `Tail` computes that split directly and `TailIsGreatestSplit`
  proves no other split comes before it; `Search` then scans start
  positions left to right as `re.search` does.
 */
module LabelSearch {
  import opened Wrappers
  import opened Text

  function AsciiLower(c: char): char {
    if 'A' <= c <= 'Z' then (c as int + 32) as char else c
  }

  /** Whether text character `c` matches label character `p` under
      `re.IGNORECASE` for a Unicode pattern: ASCII case is ignored, and the
      four non-ASCII letters that fold onto ASCII ones (dotted and dotless
      i, long s, Kelvin sign) match too. Labels are ASCII. */
  predicate FoldEq(p: char, c: char) {
    || AsciiLower(c) == AsciiLower(p)
    || (AsciiLower(p) == 'i' && (c == '\U{0130}' || c == '\U{0131}'))
    || (AsciiLower(p) == 's' && c == '\U{017F}')
    || (AsciiLower(p) == 'k' && c == '\U{212A}')
  }

  /** The label matches the text at position `p`. */
  predicate LabelAt(text: string, p: nat, lab: string) {
    p + |lab| <= |text| && forall k :: 0 <= k < |lab| ==> FoldEq(lab[k], text[p + k])
  }

  /** Where the part after a label starting at `p` begins. */
  function LabelEnd(p: nat, lab: string): nat {
    p + |lab|
  }

  /** The class `[:\-]`. */
  predicate IsSep(c: char) {
    c == ':' || c == '-'
  }

  predicate NoNewlineIn(text: string, lo: nat, hi: nat)
    requires lo <= hi <= |text|
  {
    forall k :: lo <= k < hi ==> text[k] != '\n'
  }

  /** One way of matching the text after a label: the first `\s*` covers
      `[q, lead)`, the separator `[lead, sep)`, the second `\s*`
      `[sep, start)` and the group `[start, end)`. */
  datatype Split = Split(lead: nat, sep: nat, start: nat, end: nat)

  /** `\s*[:\-]?\s*` matches `[q, s.start)` as `s` divides it. */
  predicate PrefixSplit(text: string, q: nat, s: Split) {
    && q <= s.lead <= s.sep <= s.start <= |text|
    && SpacesIn(text, q, s.lead)
    && (s.sep == s.lead || (s.sep == s.lead + 1 && IsSep(text[s.lead])))
    && SpacesIn(text, s.sep, s.start)
  }

  datatype Pattern = ScorePattern | LinePattern | BlockPattern

  /** `[A-Z]` under `re.IGNORECASE`: any ASCII letter, and the four
      non-ASCII letters whose simple case mapping lands on one. */
  predicate IsFoldedLetter(c: char) {
    IsAsciiLetter(c) || c == '\U{0130}' || c == '\U{0131}' || c == '\U{017F}' || c == '\U{212A}'
  }

  /** Some newline lies in the whitespace run starting at `i`: then `\s*\n`
      matches there (the run may itself contain the newline `\s*` gives
      back). */
  predicate NewlineInSpaceRun(text: string, i: nat)
    decreases |text| - i
  {
    i < |text| && IsSpace(text[i]) && (text[i] == '\n' || NewlineInSpaceRun(text, i + 1))
  }

  /** `[^\n]{0,room}:\s` matches at `i`. */
  predicate ColonWithin(text: string, i: nat, room: nat)
    decreases room
  {
    || (i + 1 < |text| && text[i] == ':' && IsSpace(text[i + 1]))
    || (room > 0 && i < |text| && text[i] != '\n' && ColonWithin(text, i + 1, room - 1))
  }

  /** The block terminator `\n\s*\n|\n[A-Z][^\n]{0,60}:\s|$` matches at
      `e`: a blank line, a line that opens like `Heading: `, or the end of
      the text (where `$` also accepts a single final newline). */
  predicate BlockEndAt(text: string, e: nat) {
    || (e < |text| && text[e] == '\n' && NewlineInSpaceRun(text, e + 1))
    || (e + 1 < |text| && text[e] == '\n' && IsFoldedLetter(text[e + 1]) && ColonWithin(text, e + 2, 60))
    || e == |text|
    || (e + 1 == |text| && text[e] == '\n')
  }

  /** `s` is a way for the pattern's part after the label to match at `q`. */
  predicate Matches(pat: Pattern, text: string, q: nat, s: Split) {
    && PrefixSplit(text, q, s)
    && s.start < s.end <= |text|
    && match pat
       case ScorePattern => s.end <= s.start + 3 && DigitsIn(text, s.start, s.end)
       case LinePattern => NoNewlineIn(text, s.start, s.end)
       case BlockPattern => BlockEndAt(text, s.end)
  }

  /** The matcher tries `s` no later than `t`: the prefix is greedy, so a
      longer first `\s*`, then a present separator, then a longer second
      `\s*` come first; the group is greedy in the score and single-line
      patterns and lazy in the block pattern. */
  predicate Prefers(pat: Pattern, t: Split, s: Split) {
    || t.lead < s.lead
    || (t.lead == s.lead && t.sep < s.sep)
    || (t.lead == s.lead && t.sep == s.sep && t.start < s.start)
    || (t.lead == s.lead && t.sep == s.sep && t.start == s.start &&
        (if pat == BlockPattern then s.end <= t.end else t.end <= s.end))
  }

  // ---- scanning helpers ----

  /** End of the run of at most `room` digits starting at `i`. */
  function DigitRun(text: string, i: nat, room: nat): (j: nat)
    requires i <= |text|
    ensures i <= j <= |text| && j <= i + room
    ensures DigitsIn(text, i, j)
    ensures j == i + room || j == |text| || !IsDigit(text[j])
    decreases room
  {
    if room == 0 || i == |text| || !IsDigit(text[i]) then i else DigitRun(text, i + 1, room - 1)
  }

  /** Position of the first newline at or after `i`, or the end. */
  function LineEnd(text: string, i: nat): (j: nat)
    requires i <= |text|
    ensures i <= j <= |text|
    ensures NoNewlineIn(text, i, j)
    ensures j == |text| || text[j] == '\n'
    decreases |text| - i
  {
    if i == |text| || text[i] == '\n' then i else LineEnd(text, i + 1)
  }

  /** The last position in `[lo, hi)` that is not a newline. */
  function LastNonNewline(text: string, lo: nat, hi: nat): (r: Option<nat>)
    requires lo <= hi <= |text|
    ensures r.Some? ==> lo <= r.value < hi && text[r.value] != '\n'
                        && forall m :: r.value < m < hi ==> text[m] == '\n'
    ensures r.None? ==> forall m :: lo <= m < hi ==> text[m] == '\n'
    decreases hi
  {
    if hi <= lo then None
    else if text[hi - 1] != '\n' then Some(hi - 1)
    else LastNonNewline(text, lo, hi - 1)
  }

  /** The first position at or after `i` where the block terminator
      matches; the end of the text always qualifies. */
  function BlockEnd(text: string, i: nat): (e: nat)
    requires i <= |text|
    ensures i <= e <= |text| && BlockEndAt(text, e)
    ensures forall m :: i <= m < e ==> !BlockEndAt(text, m)
    decreases |text| - i
  {
    if BlockEndAt(text, i) then i else BlockEnd(text, i + 1)
  }

  // ---- the preferred split ----

  /** The split the matcher reports for the part after a label ending at
      `q`, or `None` when that part cannot match there. */
  function Tail(pat: Pattern, text: string, q: nat): (r: Option<Split>)
    requires q <= |text|
  {
    match pat
    case ScorePattern => ScoreTail(text, q)
    case LinePattern => LineTail(text, q)
    case BlockPattern => BlockTail(text, q)
  }

  function ScoreTail(text: string, q: nat): (r: Option<Split>)
    requires q <= |text|
  {
    var a := SkipSpaces(text, q);
    if a == |text| then None
    else if IsSep(text[a]) then
      var b := SkipSpaces(text, a + 1);
      if b < |text| && IsDigit(text[b]) then Some(Split(a, a + 1, b, DigitRun(text, b, 3)))
      else None
    else if IsDigit(text[a]) then Some(Split(a, a, a, DigitRun(text, a, 3)))
    else None
  }

  function LineTail(text: string, q: nat): (r: Option<Split>)
    requires q <= |text|
  {
    var a := SkipSpaces(text, q);
    if a < |text| then
      if IsSep(text[a]) then
        var b := SkipSpaces(text, a + 1);
        if b < |text| then Some(Split(a, a + 1, b, LineEnd(text, b)))
        else match LastNonNewline(text, a + 1, |text|)
          case Some(g) => Some(Split(a, a + 1, g, LineEnd(text, g)))
          case None => Some(Split(a, a, a, LineEnd(text, a)))
      else Some(Split(a, a, a, LineEnd(text, a)))
    else match LastNonNewline(text, q, |text|)
      case Some(g) => Some(Split(g, g, g, LineEnd(text, g)))
      case None => None
  }

  /** The lazy group takes as little as it can, but at least one character;
      the prefix gives characters back only when nothing would be left for
      the group. */
  function BlockTail(text: string, q: nat): (r: Option<Split>)
    requires q <= |text|
  {
    var a := SkipSpaces(text, q);
    if a < |text| then
      if IsSep(text[a]) then
        var b := SkipSpaces(text, a + 1);
        if b < |text| then Some(Split(a, a + 1, b, BlockEnd(text, b + 1)))
        else if a + 1 < |text| then
          var g := |text| - 1;
          Some(Split(a, a + 1, g, BlockEnd(text, g + 1)))
        else Some(Split(a, a, a, BlockEnd(text, a + 1)))
      else Some(Split(a, a, a, BlockEnd(text, a + 1)))
    else if q < |text| then
      var g := |text| - 1;
      Some(Split(g, g, g, BlockEnd(text, g + 1)))
    else None
  }

  /** Whatever `Tail` reports is a way of matching. */
  lemma TailSound(pat: Pattern, text: string, q: nat)
    requires q <= |text|
    ensures Tail(pat, text, q).Some? ==> Matches(pat, text, q, Tail(pat, text, q).value)
  {
    match pat
    case ScorePattern => ScoreTailSound(text, q);
    case LinePattern => LineTailSound(text, q);
    case BlockPattern => BlockTailSound(text, q);
  }

  lemma ScoreTailSound(text: string, q: nat)
    requires q <= |text|
    ensures ScoreTail(text, q).Some? ==> Matches(ScorePattern, text, q, ScoreTail(text, q).value)
  {
  }

  lemma LineTailSound(text: string, q: nat)
    requires q <= |text|
    ensures LineTail(text, q).Some? ==> Matches(LinePattern, text, q, LineTail(text, q).value)
  {
  }

  lemma BlockTailSound(text: string, q: nat)
    requires q <= |text|
    ensures BlockTail(text, q).Some? ==> Matches(BlockPattern, text, q, BlockTail(text, q).value)
  {
  }

  /** Every split of the prefix keeps its first `\s*` inside the whitespace
      run that starts at `q`. */
  lemma LeadBound(text: string, q: nat, t: Split)
    requires PrefixSplit(text, q, t)
    ensures t.lead <= SkipSpaces(text, q)
  {
  }

  lemma ScoreTailGreatest(text: string, q: nat, t: Split)
    requires Matches(ScorePattern, text, q, t)
    ensures ScoreTail(text, q).Some? && Prefers(ScorePattern, t, ScoreTail(text, q).value)
  {
    LeadBound(text, q, t);
    assert IsDigit(text[t.start]);
  }

  lemma LineTailGreatest(text: string, q: nat, t: Split)
    requires Matches(LinePattern, text, q, t)
    ensures LineTail(text, q).Some? && Prefers(LinePattern, t, LineTail(text, q).value)
  {
    LeadBound(text, q, t);
    assert text[t.start] != '\n';
  }

  lemma BlockTailGreatest(text: string, q: nat, t: Split)
    requires Matches(BlockPattern, text, q, t)
    ensures BlockTail(text, q).Some? && Prefers(BlockPattern, t, BlockTail(text, q).value)
  {
    LeadBound(text, q, t);
  }

  /** `Tail` is the match the backtracking matcher reports: it exists
      whenever any split matches, and no split that matches is tried
      before it. */
  lemma TailIsGreatestSplit(pat: Pattern, text: string, q: nat, t: Split)
    requires q <= |text|
    requires Matches(pat, text, q, t)
    ensures Tail(pat, text, q).Some? && Prefers(pat, t, Tail(pat, text, q).value)
  {
    match pat
    case ScorePattern => ScoreTailGreatest(text, q, t);
    case LinePattern => LineTailGreatest(text, q, t);
    case BlockPattern => BlockTailGreatest(text, q, t);
  }

  // ---- re.search ----

  /** The whole pattern, label included, matches from `p` as `t` divides the
      part after the label. */
  predicate WholeMatch(pat: Pattern, text: string, lab: string, p: nat, t: Split) {
    LabelAt(text, p, lab) && Matches(pat, text, LabelEnd(p, lab), t)
  }

  /** The match of the whole pattern (label included) starting at `p`. */
  function MatchAt(pat: Pattern, text: string, lab: string, p: nat): (r: Option<Split>) {
    if LabelAt(text, p, lab) then Tail(pat, text, LabelEnd(p, lab)) else None
  }

  /** Whatever `MatchAt` reports is a way of matching there. */
  lemma MatchAtSound(pat: Pattern, text: string, lab: string, p: nat)
    ensures MatchAt(pat, text, lab, p).Some? ==> WholeMatch(pat, text, lab, p, MatchAt(pat, text, lab, p).value)
  {
    if LabelAt(text, p, lab) {
      MatchAtIsTail(pat, text, lab, p);
      TailSound(pat, text, LabelEnd(p, lab));
    }
  }

  /** Where a match starts and how its part after the label divides. */
  datatype Hit = Hit(at: nat, split: Split)

  /** The scan of `re.search`: the leftmost start position in `[from, n]`
      at which `matchAt` succeeds. */
  function FirstHit(matchAt: nat -> Option<Split>, n: nat, from: nat): (r: Option<Hit>)
    requires from <= n
    ensures r.Some? ==> from <= r.value.at <= n && matchAt(r.value.at) == Some(r.value.split)
                        && forall k :: from <= k < r.value.at ==> matchAt(k).None?
    ensures r.None? ==> forall k :: from <= k <= n ==> matchAt(k).None?
    decreases n - from
  {
    var m := matchAt(from);
    if m.Some? then Some(Hit(from, m.value))
    else if from == n then None
    else FirstHit(matchAt, n, from + 1)
  }

  /** `re.search`: the leftmost start position at which the pattern
      matches, and the split reported there. */
  function Search(pat: Pattern, text: string, lab: string): (r: Option<Hit>)
    ensures r.Some? ==> r.value.at <= |text|
                        && MatchAt(pat, text, lab, r.value.at) == Some(r.value.split)
                        && forall k :: 0 <= k < r.value.at ==> MatchAt(pat, text, lab, k).None?
    ensures r.None? ==> forall k :: 0 <= k <= |text| ==> MatchAt(pat, text, lab, k).None?
  {
    var matchAt := (p: nat) => MatchAt(pat, text, lab, p);
    var r := FirstHit(matchAt, |text|, 0);
    assert forall k: nat :: matchAt(k) == MatchAt(pat, text, lab, k);
    r
  }

  /** What the group of a match captures: at least one character, one to
      three digits for the score pattern, no newline for the single-line
      pattern. */
  lemma CapturedShape(pat: Pattern, text: string, q: nat, t: Split)
    requires Matches(pat, text, q, t)
    ensures var g := text[t.start..t.end];
            && g != []
            && (pat == ScorePattern ==> |g| <= 3 && forall k :: 0 <= k < |g| ==> IsDigit(g[k]))
            && (pat == LinePattern ==> '\n' !in g)
  {
    var g := text[t.start..t.end];
    assert forall k :: 0 <= k < |g| ==> g[k] == text[t.start + k];
  }

  /** `m.group(1)` of the pattern's `re.search` over `text`, or `None` when
      there is no match. */
  function Group(pat: Pattern, text: string, lab: string): (r: Option<string>)
    ensures r.Some? ==> r.value != []
    ensures r.Some? && pat == ScorePattern ==>
              |r.value| <= 3 && forall k :: 0 <= k < |r.value| ==> IsDigit(r.value[k])
    ensures r.Some? && pat == LinePattern ==> '\n' !in r.value
  {
    match Search(pat, text, lab)
    case None => None
    case Some(h) =>
      MatchAtSound(pat, text, lab, h.at);
      CapturedShape(pat, text, LabelEnd(h.at, lab), h.split);
      Some(text[h.split.start..h.split.end])
  }

  /** `Group` is `None` exactly when no start position and no split match. */
  lemma GroupNoneIffNoMatch(pat: Pattern, text: string, lab: string)
    ensures Group(pat, text, lab).None? <==>
              forall p, t :: 0 <= p <= |text| ==> !WholeMatch(pat, text, lab, p, t)
  {
    if Group(pat, text, lab).None? {
      forall p, t | 0 <= p <= |text|
        ensures !WholeMatch(pat, text, lab, p, t)
      {
        assert MatchAt(pat, text, lab, p).None?;
        if WholeMatch(pat, text, lab, p, t) {
          TailIsGreatestSplit(pat, text, LabelEnd(p, lab), t);
        }
      }
    } else {
      var h := Search(pat, text, lab).value;
      MatchAtSound(pat, text, lab, h.at);
    }
  }

  lemma MatchAtIsTail(pat: Pattern, text: string, lab: string, p: nat)
    requires LabelAt(text, p, lab)
    ensures MatchAt(pat, text, lab, p) == Tail(pat, text, LabelEnd(p, lab))
  {
  }

  /** Any way of matching at `p` makes `MatchAt` succeed there with a split
      that is at least as preferred. */
  lemma MatchAtComplete(pat: Pattern, text: string, lab: string, p: nat, t: Split)
    requires WholeMatch(pat, text, lab, p, t)
    ensures MatchAt(pat, text, lab, p).Some? && Prefers(pat, t, MatchAt(pat, text, lab, p).value)
  {
    MatchAtIsTail(pat, text, lab, p);
    TailIsGreatestSplit(pat, text, LabelEnd(p, lab), t);
  }

  /** When there is a group, it is the one `re.search` reports: it comes
      from the leftmost start position at which the pattern matches at all,
      and from the split the backtracking matcher prefers there. */
  lemma GroupIsFirstMatch(pat: Pattern, text: string, lab: string) returns (p: nat, t: Split)
    requires Group(pat, text, lab).Some?
    ensures p <= |text| && WholeMatch(pat, text, lab, p, t)
    ensures Group(pat, text, lab).value == text[t.start..t.end]
    ensures forall p', t' :: 0 <= p' < p ==> !WholeMatch(pat, text, lab, p', t')
    ensures forall t' :: WholeMatch(pat, text, lab, p, t') ==> Prefers(pat, t', t)
  {
    var h := Search(pat, text, lab).value;
    p, t := h.at, h.split;
    MatchAtSound(pat, text, lab, p);
    assert MatchAt(pat, text, lab, p) == Some(t);
    forall p', t' | 0 <= p' < p && WholeMatch(pat, text, lab, p', t')
      ensures false
    {
      MatchAtComplete(pat, text, lab, p', t');
    }
    forall t' | WholeMatch(pat, text, lab, p, t')
      ensures Prefers(pat, t', t)
    {
      MatchAtComplete(pat, text, lab, p, t');
    }
  }
}
