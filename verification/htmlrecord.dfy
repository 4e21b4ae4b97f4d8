/**
  The record `app.py` builds from the result page of one site. The page is
  given already navigated: the overall score span, the headline paragraph,
  and the cards of the two sections, each card with its title, score and
  description when present. A section or grid that is missing contributes
  no cards. Fields nothing is found for stay `"-"`.
 */
module HtmlRecord {
  import opened Wrappers
  import opened Text
  import opened Urls
  import opened Fields

  // ---- _clean_text ----

  /** Whitespace in `s` is only single spaces. */
  ghost predicate SingleSpaced(s: string) {
    && (forall i :: 0 <= i < |s| ==> IsSpace(s[i]) ==> s[i] == ' ')
    && (forall i, j :: 0 <= i < j < |s| && j == i + 1 ==> s[i] != ' ' || s[j] != ' ')
  }

  /** The non-whitespace characters of `s`, in order. */
  function NonSpaces(s: string): string {
    if s == [] then []
    else if IsSpace(s[0]) then NonSpaces(s[1..])
    else [s[0]] + NonSpaces(s[1..])
  }

  /** `re.sub(r'\s+', ' ', s)`: every maximal whitespace run becomes one
      space, and the other characters stay as they were. Read from the
      left, a whitespace character followed by another one is dropped, and
      the last one of a run becomes a space. */
  function CollapseSpaces(s: string): (r: string)
    ensures SingleSpaced(r)
    ensures (s != [] && IsSpace(s[0])) <==> (r != [] && r[0] == ' ')
    decreases |s|
  {
    if s == [] then []
    else if IsSpace(s[0]) && |s| > 1 && IsSpace(s[1]) then CollapseSpaces(s[1..])
    else
      var rest := CollapseSpaces(s[1..]);
      var c := if IsSpace(s[0]) then ' ' else s[0];
      assert ([c] + rest)[1..] == rest;
      [c] + rest
  }

  /** Collapsing never lengthens a text. */
  lemma {:induction false} CollapseNotLonger(s: string)
    ensures |CollapseSpaces(s)| <= |s|
    decreases |s|
  {
    if s != [] {
      CollapseNotLonger(s[1..]);
    }
  }

  /** Collapsing touches only whitespace: the other characters stay as they
      were, in order. */
  lemma {:induction false} CollapseKeepsNonSpaces(s: string)
    ensures NonSpaces(CollapseSpaces(s)) == NonSpaces(s)
    decreases |s|
  {
    if s != [] {
      CollapseKeepsNonSpaces(s[1..]);
      if !(IsSpace(s[0]) && |s| > 1 && IsSpace(s[1])) {
        var rest := CollapseSpaces(s[1..]);
        var c := if IsSpace(s[0]) then ' ' else s[0];
        assert ([c] + rest)[0] == c && ([c] + rest)[1..] == rest;
      }
    }
  }

  /** A whitespace run on its own collapses to a single space. */
  lemma {:induction false} CollapseOfSpaces(w: string)
    requires w != [] && SpacesIn(w, 0, |w|)
    ensures CollapseSpaces(w) == " "
    decreases |w|
  {
    if |w| > 1 {
      assert IsSpace(w[1]);
      CollapseOfSpaces(w[1..]);
    } else {
      assert w[1..] == [];
    }
  }

  /** Collapsing works piece by piece wherever the cut does not fall inside
      a whitespace run: the pieces collapse on their own and are put back
      together. */
  lemma {:induction false} CollapseConcat(a: string, b: string)
    requires a == [] || b == [] || !IsSpace(a[|a| - 1]) || !IsSpace(b[0])
    ensures CollapseSpaces(a + b) == CollapseSpaces(a) + CollapseSpaces(b)
    decreases |a|
  {
    var ab := a + b;
    if a == [] {
      assert ab == b;
    } else if b == [] {
      assert ab == a;
    } else {
      var a' := a[1..];
      assert ab[0] == a[0] && ab[1..] == a' + b;
      if a' == [] {
        assert ab[1] == b[0];
      } else {
        assert ab[1] == a[1];
        CollapseConcat(a', b);
      }
    }
  }

  /** Words keep their boundary: a whitespace run between two
      non-whitespace characters becomes exactly one space. */
  lemma CollapseBetweenWords(a: string, w: string, b: string)
    requires a != [] && !IsSpace(a[|a| - 1])
    requires w != [] && SpacesIn(w, 0, |w|)
    requires b != [] && !IsSpace(b[0])
    ensures CollapseSpaces(a + w + b) == CollapseSpaces(a) + " " + CollapseSpaces(b)
  {
    assert a + w + b == a + (w + b);
    CollapseConcat(a, w + b);
    CollapseConcat(w, b);
    CollapseOfSpaces(w);
  }

  /** The characters `[\w\s\.,;:()!?\-\'\"\/&]` keeps. */
  predicate IsKept(c: char) {
    IsWordChar(c) || IsSpace(c) || c in ".,;:()!?-'\"/&"
  }

  /** `re.sub(r'[^\w\s\.,;:()!?\-\'\"\/&]', '', s)`: the kept characters
      of `s`, in order. */
  function KeepAllowed(s: string): (r: string)
    ensures |r| <= |s|
    ensures forall i :: 0 <= i < |r| ==> IsKept(r[i])
    ensures forall c :: c in r ==> c in s
  {
    if s == [] then []
    else if IsKept(s[0]) then [s[0]] + KeepAllowed(s[1..])
    else KeepAllowed(s[1..])
  }

  /** The filter works character by character: filtering a concatenation
      concatenates the filtered parts. */
  lemma {:induction false} KeepAllowedConcat(a: string, b: string)
    ensures KeepAllowed(a + b) == KeepAllowed(a) + KeepAllowed(b)
    decreases |a|
  {
    if a == [] {
      assert a + b == b;
    } else {
      assert (a + b)[0] == a[0] && (a + b)[1..] == a[1..] + b;
      KeepAllowedConcat(a[1..], b);
    }
  }

  /** One character is kept exactly when it is an allowed character. */
  lemma KeepAllowedSingle(c: char)
    ensures KeepAllowed([c]) == (if IsKept(c) then [c] else [])
  {
    assert [c][1..] == [];
  }

  /** `_clean_text`: `"-"` for an empty or `"-"` text; otherwise the text
      with whitespace runs collapsed to single spaces, unwanted characters
      removed and the ends stripped. */
  function CleanText(text: string): (r: string)
    ensures text == [] || text == Dash ==> r == Dash
    ensures Stripped(r)
    ensures forall i :: 0 <= i < |r| ==> IsKept(r[i]) && (IsSpace(r[i]) ==> r[i] == ' ')
  {
    if text == [] || text == Dash then Dash
    else
      var collapsed := CollapseSpaces(Strip(text));
      var kept := KeepAllowed(collapsed);
      assert forall i :: 0 <= i < |kept| ==> IsSpace(kept[i]) ==> kept[i] == ' ' by {
        forall i | 0 <= i < |kept| && IsSpace(kept[i]) ensures kept[i] == ' ' {
          assert kept[i] in collapsed;
        }
      }
      Strip(kept)
  }

  lemma {:induction false} NonSpacesConcat(a: string, b: string)
    ensures NonSpaces(a + b) == NonSpaces(a) + NonSpaces(b)
    decreases |a|
  {
    if a == [] {
      assert a + b == b;
    } else {
      var ab := a + b;
      assert ab[0] == a[0] && ab[1..] == a[1..] + b;
      NonSpacesConcat(a[1..], b);
      if IsSpace(a[0]) {
        assert NonSpaces(ab) == NonSpaces(a[1..] + b);
      } else {
        assert NonSpaces(ab) == [a[0]] + NonSpaces(a[1..] + b);
        assert NonSpaces(a) == [a[0]] + NonSpaces(a[1..]);
      }
    }
  }

  lemma {:induction false} NonSpacesOfSpaces(s: string)
    requires SpacesIn(s, 0, |s|)
    ensures NonSpaces(s) == []
    decreases |s|
  {
    if s != [] {
      NonSpacesOfSpaces(s[1..]);
    }
  }

  /** Cutting whitespace margins off a string keeps its non-whitespace. */
  lemma NonSpacesOfMargins(s: string, i: nat, j: nat)
    requires i <= j <= |s| && SpacesIn(s, 0, i) && SpacesIn(s, j, |s|)
    ensures NonSpaces(s[i..j]) == NonSpaces(s)
  {
    var pre, mid, post := s[..i], s[i..j], s[j..];
    assert s == pre + mid + post;
    assert SpacesIn(pre, 0, |pre|) by {
      forall k | 0 <= k < |pre| ensures IsSpace(pre[k]) {
        assert pre[k] == s[k];
      }
    }
    assert SpacesIn(post, 0, |post|) by {
      forall k | 0 <= k < |post| ensures IsSpace(post[k]) {
        assert post[k] == s[j + k];
      }
    }
    NonSpacesOfSpaces(pre);
    NonSpacesOfSpaces(post);
    NonSpacesConcat(pre + mid, post);
    NonSpacesConcat(pre, mid);
  }

  /** `strip()` removes only whitespace. */
  lemma NonSpacesStrip(s: string)
    ensures NonSpaces(Strip(s)) == NonSpaces(s)
  {
    var i, j :| 0 <= i <= j <= |s| && SpacesIn(s, 0, i) && SpacesIn(s, j, |s|) && Strip(s) == s[i..j];
    NonSpacesOfMargins(s, i, j);
  }

  /** Removing unwanted characters and dropping whitespace can be done in
      either order, since whitespace is always kept. */
  lemma {:induction false} NonSpacesKeepAllowed(s: string)
    ensures NonSpaces(KeepAllowed(s)) == KeepAllowed(NonSpaces(s))
  {
    if s != [] {
      NonSpacesKeepAllowed(s[1..]);
      if IsKept(s[0]) {
        assert ([s[0]] + KeepAllowed(s[1..]))[1..] == KeepAllowed(s[1..]);
      }
      if !IsSpace(s[0]) {
        assert ([s[0]] + NonSpaces(s[1..]))[1..] == NonSpaces(s[1..]);
      }
    }
  }

  /** Apart from whitespace, the cleaned text is exactly the allowed
      characters of the input, in their order. */
  lemma CleanTextContent(text: string)
    requires text != [] && text != Dash
    ensures NonSpaces(CleanText(text)) == KeepAllowed(NonSpaces(text))
  {
    var collapsed := CollapseSpaces(Strip(text));
    var kept := KeepAllowed(collapsed);
    CollapseKeepsNonSpaces(Strip(text));
    NonSpacesStrip(kept);
    NonSpacesKeepAllowed(collapsed);
    NonSpacesStrip(text);
  }

  lemma {:induction false} CollapseSingleSpaced(s: string)
    requires SingleSpaced(s)
    ensures CollapseSpaces(s) == s
    decreases |s|
  {
    if s != [] {
      assert |s| > 1 ==> IsSpace(s[0]) ==> s[1] != ' ' && !IsSpace(s[1]);
      assert SingleSpaced(s[1..]);
      CollapseSingleSpaced(s[1..]);
    }
  }

  lemma {:induction false} KeepAllAllowed(s: string)
    requires forall i :: 0 <= i < |s| ==> IsKept(s[i])
    ensures KeepAllowed(s) == s
  {
    if s != [] {
      KeepAllAllowed(s[1..]);
    }
  }

  /** A text that is already clean — not empty, not `"-"`, stripped, only
      kept characters and single spaces — comes back unchanged. */
  lemma CleanTextOfCleanText(t: string)
    requires t != [] && t != Dash && Stripped(t)
    requires forall i :: 0 <= i < |t| ==> IsKept(t[i])
    requires SingleSpaced(t)
    ensures CleanText(t) == t
  {
    StripOfStripped(t);
    CollapseSingleSpaced(t);
    KeepAllAllowed(t);
  }

  /** Cleaning keeps word boundaries: two clean texts with any whitespace
      run between them clean to the two texts joined by one space. */
  lemma CleanTextJoinsWords(a: string, w: string, b: string)
    requires a != [] && Stripped(a) && SingleSpaced(a) && forall i :: 0 <= i < |a| ==> IsKept(a[i])
    requires b != [] && Stripped(b) && SingleSpaced(b) && forall i :: 0 <= i < |b| ==> IsKept(b[i])
    requires w != [] && SpacesIn(w, 0, |w|)
    ensures CleanText(a + w + b) == a + " " + b
  {
    var s := a + w + b;
    var c := a + " " + b;
    assert |s| > 1 && s != Dash;
    assert Strip(s) == s by {
      assert s[0] == a[0] && s[|s| - 1] == b[|b| - 1];
      StripOfStripped(s);
    }
    assert CollapseSpaces(s) == c by {
      CollapseBetweenWords(a, w, b);
      CollapseSingleSpaced(a);
      CollapseSingleSpaced(b);
    }
    assert KeepAllowed(c) == c by {
      KeepAllAllowed(a);
      KeepAllAllowed(b);
      KeepAllowedConcat(a, " ");
      KeepAllowedConcat(a + " ", b);
      KeepAllowedSingle(' ');
    }
    assert Strip(c) == c by {
      assert c[0] == a[0] && c[|c| - 1] == b[|b| - 1];
      StripOfStripped(c);
    }
  }

  /** Cleaning can leave nothing at all: a text made only of removed
      characters becomes the empty string, not `"-"`. */
  lemma CleanTextCanBeEmpty()
    ensures CleanText("@") == []
  {
    var s := "@";
    assert s[0] == '@' && |s| == 1 && s[1..] == [];
    assert !IsSpace(s[0]) && !IsKept(s[0]);
    assert Strip(s) == s by { StripOfStripped(s); }
    assert CollapseSpaces(s) == [s[0]] + CollapseSpaces([]);
    assert KeepAllowed(s) == KeepAllowed([]);
    StripOfStripped([]);
  }

  // ---- the overall score ----

  /** End of the digit run starting at `i`. */
  function DigitsEnd(s: string, i: nat): (j: nat)
    requires i <= |s|
    ensures i <= j <= |s| && DigitsIn(s, i, j)
    ensures j == |s| || !IsDigit(s[j])
    decreases |s| - i
  {
    if i < |s| && IsDigit(s[i]) then DigitsEnd(s, i + 1) else i
  }

  /** `re.match(r'^\d+\.?\d*$', s)`; `$` also matches just before a final
      newline. */
  predicate IsOverallScore(s: string) {
    var k := DigitsEnd(s, 0);
    var m := if k < |s| && s[k] == '.' then DigitsEnd(s, k + 1) else k;
    0 < k && (m == |s| || (m + 1 == |s| && s[m] == '\n'))
  }

  /** One or more digits, then optionally a point followed by zero or more
      digits (so "12." is one). */
  predicate Decimal(s: string) {
    exists i :: 0 < i <= |s| && DigitsIn(s, 0, i) && (i == |s| || (s[i] == '.' && DigitsIn(s, i + 1, |s|)))
  }

  lemma DigitsEndAt(s: string, i: nat, j: nat)
    requires i <= j <= |s| && DigitsIn(s, i, j) && (j == |s| || !IsDigit(s[j]))
    ensures DigitsEnd(s, i) == j
    decreases j - i
  {
    if i < j {
      DigitsEndAt(s, i + 1, j);
    }
  }

  lemma DecimalIffScan(s: string)
    ensures Decimal(s) <==>
              var k := DigitsEnd(s, 0);
              var m := if k < |s| && s[k] == '.' then DigitsEnd(s, k + 1) else k;
              0 < k && m == |s|
  {
    var k := DigitsEnd(s, 0);
    if Decimal(s) {
      var i :| 0 < i <= |s| && DigitsIn(s, 0, i) && (i == |s| || (s[i] == '.' && DigitsIn(s, i + 1, |s|)));
      DigitsEndAt(s, 0, i);
      if i < |s| {
        DigitsEndAt(s, i + 1, |s|);
      }
    }
  }

  /** The overall-score test accepts exactly a decimal number, possibly
      followed by one newline. */
  lemma OverallScoreIsDecimal(s: string)
    ensures IsOverallScore(s) <==>
              Decimal(s) || (s != [] && s[|s| - 1] == '\n' && Decimal(s[..|s| - 1]))
  {
    DecimalIffScan(s);
    if s != [] && s[|s| - 1] == '\n' {
      var t := s[..|s| - 1];
      DecimalIffScan(t);
      var k := DigitsEnd(s, 0);
      DigitsEndAt(t, 0, k);
      if k < |t| && s[k] == '.' {
        DigitsEndAt(t, k + 1, DigitsEnd(s, k + 1));
      }
    }
  }

  // ---- the page and its cards ----

  /** A card: its `h3` title, `text-2xl` score span and `text-gray-300`
      description paragraph, each as stripped text when present. */
  datatype Card = Card(title: Option<string>, score: Option<string>, description: Option<string>)

  /** The parts of a result page the parser reads. */
  datatype Page = Page(
    overallScore: Option<string>,
    headline: Option<string>,
    audienceCards: seq<Card>,
    technicalCards: seq<Card>)

  datatype Section = Audience | Technical

  /** The criterion a card title names in a section, if any. */
  function Slot(sec: Section, title: string): (c: Option<Criterion>)
    ensures c.Some? ==> SectionOf(c.value) == sec
  {
    match sec
    case Audience =>
      if title == "Consumer" then Some(Consumer)
      else if title == "Developer" then Some(Developer)
      else if title == "Investor" then Some(Investor)
      else None
    case Technical =>
      if title == "Clarity" then Some(Clarity)
      else if title == "Visual Design" then Some(VisualDesign)
      else if title == "UX" then Some(Ux)
      else if title == "Trust" then Some(Trust)
      else if title == "Value Proposition" then Some(ValueProp)
      else None
  }

  function SectionOf(c: Criterion): Section {
    if c == Consumer || c == Developer || c == Investor then Audience else Technical
  }

  /** Every criterion has a card title that fills it. */
  lemma EveryCriterionHasTitle(c: Criterion)
    ensures exists title :: Slot(SectionOf(c), title) == Some(c)
  {
    match c
    case Consumer => assert Slot(Audience, "Consumer") == Some(c);
    case Developer => assert Slot(Audience, "Developer") == Some(c);
    case Investor => assert Slot(Audience, "Investor") == Some(c);
    case Clarity => assert Slot(Technical, "Clarity") == Some(c);
    case VisualDesign => assert Slot(Technical, "Visual Design") == Some(c);
    case Ux => assert Slot(Technical, "UX") == Some(c);
    case Trust => assert Slot(Technical, "Trust") == Some(c);
    case ValueProp => assert Slot(Technical, "Value Proposition") == Some(c);
  }

  /** The card fills criterion `c` of section `sec`. */
  predicate Fills(sec: Section, card: Card, c: Criterion) {
    card.title.Some? && Slot(sec, card.title.value) == Some(c)
  }

  function CardScore(card: Card): string {
    card.score.GetOr(Dash)
  }

  function CardDescription(card: Card): string {
    match card.description
    case None => Dash
    case Some(d) => CleanText(d)
  }

  /** One pass of the card loop: a card without a title or with a title the
      section does not know is skipped; otherwise its score and cleaned
      description overwrite the criterion's two fields. */
  function ApplyCard(r: Record, sec: Section, card: Card): Record {
    if card.title.None? then r
    else match Slot(sec, card.title.value)
      case None => r
      case Some(c) => r[Score(c) := CardScore(card)][ScoreDescription(c) := CardDescription(card)]
  }

  function ApplyCards(r: Record, sec: Section, cards: seq<Card>): Record
    decreases |cards|
  {
    if cards == [] then r else ApplyCards(ApplyCard(r, sec, cards[0]), sec, cards[1..])
  }

  /** The last card of the list that fills `c`. */
  function LastFilling(sec: Section, cards: seq<Card>, c: Criterion): (r: Option<nat>)
    ensures r.Some? ==> r.value < |cards| && Fills(sec, cards[r.value], c)
                        && forall j :: r.value < j < |cards| ==> !Fills(sec, cards[j], c)
    ensures r.None? ==> forall j :: 0 <= j < |cards| ==> !Fills(sec, cards[j], c)
    decreases |cards|
  {
    if cards == [] then None
    else if Fills(sec, cards[|cards| - 1], c) then Some(|cards| - 1)
    else LastFilling(sec, cards[..|cards| - 1], c)
  }

  /** The record has both fields of every criterion. */
  predicate HasCriteria(r: Record) {
    forall c :: Score(c) in r && ScoreDescription(c) in r
  }

  /** What one card does to field `f`: a card filling criterion `c` sets
      `c`'s score and description, and every other field stays. */
  lemma ApplyCardEffect(r: Record, sec: Section, card: Card, f: Field)
    requires HasCriteria(r)
    ensures ApplyCard(r, sec, card).Keys == r.Keys
    ensures f in r ==>
              ApplyCard(r, sec, card)[f] ==
                (if f.Score? && Fills(sec, card, f.c) then CardScore(card)
                 else if f.ScoreDescription? && Fills(sec, card, f.c) then CardDescription(card)
                 else r[f])
  {
  }

  lemma {:induction false} ApplyCardsSnoc(r: Record, sec: Section, cards: seq<Card>, card: Card)
    ensures ApplyCards(r, sec, cards + [card]) == ApplyCard(ApplyCards(r, sec, cards), sec, card)
    decreases |cards|
  {
    if cards == [] {
      assert cards + [card] == [card];
    } else {
      assert (cards + [card])[1..] == cards[1..] + [card];
      ApplyCardsSnoc(ApplyCard(r, sec, cards[0]), sec, cards[1..], card);
    }
  }

  /** The card loop keeps the record's fields and leaves every field that
      is not a criterion's score or description alone. */
  lemma {:induction false} ApplyCardsKeeps(r: Record, sec: Section, cards: seq<Card>)
    requires HasCriteria(r)
    ensures ApplyCards(r, sec, cards).Keys == r.Keys
    ensures forall f :: f in r && !f.Score? && !f.ScoreDescription? ==> ApplyCards(r, sec, cards)[f] == r[f]
    decreases |cards|
  {
    if cards != [] {
      var r1 := ApplyCard(r, sec, cards[0]);
      assert r1.Keys == r.Keys by {
        ApplyCardEffect(r, sec, cards[0], Company);
      }
      forall f | f in r && !f.Score? && !f.ScoreDescription? ensures r1[f] == r[f] {
        ApplyCardEffect(r, sec, cards[0], f);
      }
      ApplyCardsKeeps(r1, sec, cards[1..]);
    }
  }

  /** After the card loop, criterion `c` holds the score and description of
      the last card that fills it, or what it held before when none does. */
  lemma {:induction false} ApplyCardsLastWins(r: Record, sec: Section, cards: seq<Card>, c: Criterion)
    requires HasCriteria(r)
    ensures HasCriteria(ApplyCards(r, sec, cards))
    ensures var r' := ApplyCards(r, sec, cards);
            match LastFilling(sec, cards, c)
            case None => r'[Score(c)] == r[Score(c)] && r'[ScoreDescription(c)] == r[ScoreDescription(c)]
            case Some(i) => r'[Score(c)] == CardScore(cards[i]) && r'[ScoreDescription(c)] == CardDescription(cards[i])
    decreases |cards|
  {
    ApplyCardsKeeps(r, sec, cards);
    if cards != [] {
      var init, last := cards[..|cards| - 1], cards[|cards| - 1];
      assert init + [last] == cards;
      ApplyCardsSnoc(r, sec, init, last);
      ApplyCardsLastWins(r, sec, init, c);
      var mid := ApplyCards(r, sec, init);
      ApplyCardsKeeps(r, sec, init);
      ApplyCardEffect(mid, sec, last, Score(c));
      ApplyCardEffect(mid, sec, last, ScoreDescription(c));
      if !Fills(sec, last, c) {
        assert LastFilling(sec, cards, c) == LastFilling(sec, init, c);
        match LastFilling(sec, init, c)
        case None =>
        case Some(i) => assert init[i] == cards[i];
      }
    }
  }

  // ---- _parse_ratemysite_html ----

  /** The record's fields: every field but the raw text. */
  const HtmlFields: set<Field> :=
    {Company, Url, OverallScore, Description}
    + (set c: Criterion | true :: Score(c))
    + (set c: Criterion | true :: ScoreDescription(c))

  lemma HtmlFieldsAreAllButRaw(f: Field)
    ensures f in HtmlFields <==> !f.Raw?
  {
    if f.Score? || f.ScoreDescription? {
      match f.c
      case Consumer => case Developer => case Investor => case Clarity =>
      case VisualDesign => case Ux => case Trust => case ValueProp =>
    }
  }

  /** The record before anything is read from the page: the company name,
      the URL, and `"-"` everywhere else. */
  function InitialRecord(company: string, url: string): (r: Record)
    ensures forall f :: f in r <==> !f.Raw?
    ensures r[Company] == company && r[Url] == url
    ensures forall f :: f in r && f != Company && f != Url ==> r[f] == Dash
  {
    assert forall f :: f in HtmlFields <==> !f.Raw? by {
      forall f: Field { HtmlFieldsAreAllButRaw(f); }
    }
    map f | f in HtmlFields :: if f == Company then company else if f == Url then url else Dash
  }

  /** The overall score the page yields: its text, when that is a decimal
      number, possibly followed by one newline. */
  function ReadScore(found: Option<string>): (r: Option<string>)
    ensures r.Some? <==> found.Some? && IsOverallScore(found.value)
    ensures r.Some? <==> found.Some? && var v := found.value;
              Decimal(v) || (v != [] && v[|v| - 1] == '\n' && Decimal(v[..|v| - 1]))
    ensures r.Some? ==> r == found
  {
    match found
    case None => None
    case Some(v) =>
      OverallScoreIsDecimal(v);
      if IsOverallScore(v) then found else None
  }

  /** The description the page yields: the headline, when there is one,
      as `"-"` or a stripped text of allowed characters and single spaces
      whose non-whitespace is exactly the allowed characters of the
      headline. The last ensures, the cleaned headline itself, is what
      ParseHtmlHeader states the description field through. */
  function ReadHeadline(found: Option<string>): (r: Option<string>)
    ensures r.Some? <==> found.Some?
    ensures r.Some? && (found.value == [] || found.value == Dash) ==> r.value == Dash
    ensures r.Some? && found.value != [] && found.value != Dash ==>
              && Stripped(r.value)
              && (forall i :: 0 <= i < |r.value| ==> IsKept(r.value[i]) && (IsSpace(r.value[i]) ==> r.value[i] == ' '))
              && NonSpaces(r.value) == KeepAllowed(NonSpaces(found.value))
    ensures r.Some? ==> r.value == CleanText(found.value)
  {
    match found
    case None => None
    case Some(t) =>
      if t == [] || t == Dash then Some(CleanText(t))
      else
        CleanTextContent(t);
        Some(CleanText(t))
  }

  /** The record after the overall score and the description are read. */
  function Header(url: string, score: Option<string>, description: Option<string>): (r: Record)
    ensures forall f :: f in r <==> !f.Raw?
    ensures r[Company] == CompanyName(url) && r[Url] == url
    ensures r[OverallScore] == score.GetOr(Dash) && r[Description] == description.GetOr(Dash)
    ensures forall c :: r[Score(c)] == Dash && r[ScoreDescription(c)] == Dash
  {
    var r0 := InitialRecord(CompanyName(url), url);
    var r1 := if score.Some? then r0[OverallScore := score.value] else r0;
    if description.Some? then r1[Description := description.value] else r1
  }

  /** `_parse_ratemysite_html`: the overall score when it looks like a
      number, the cleaned headline, then the audience cards and the
      technical cards in page order. */
  function ParseHtml(page: Page, url: string): (r: Record)
    ensures forall f :: f in r <==> !f.Raw?
    ensures r[Company] == CompanyName(url) && r[Url] == url
    ensures r[OverallScore] == Dash || IsOverallScore(r[OverallScore])
  {
    var h := Header(url, ReadScore(page.overallScore), ReadHeadline(page.headline));
    assert h[OverallScore] == Dash || IsOverallScore(h[OverallScore]);
    WithCards(h, page)
  }

  /** The audience cards, then the technical cards, applied to `h`. */
  function WithCards(h: Record, page: Page): (r: Record)
    requires HasCriteria(h)
    ensures r.Keys == h.Keys
    ensures forall f :: f in h && !f.Score? && !f.ScoreDescription? ==> r[f] == h[f]
  {
    var r := ApplyCards(h, Audience, page.audienceCards);
    ApplyCardsKeeps(h, Audience, page.audienceCards);
    ApplyCardsKeeps(r, Technical, page.technicalCards);
    ApplyCards(r, Technical, page.technicalCards)
  }

  /** The overall score and the description come from the page when it has
      them (the score only when it passes the number test), and are `"-"`
      otherwise. */
  lemma ParseHtmlHeader(page: Page, url: string)
    ensures var r := ParseHtml(page, url);
            && r[OverallScore] == (if page.overallScore.Some? && IsOverallScore(page.overallScore.value)
                                   then page.overallScore.value else Dash)
            && r[Description] == (if page.headline.Some? then CleanText(page.headline.value) else Dash)
  {
    var h := Header(url, ReadScore(page.overallScore), ReadHeadline(page.headline));
    assert ParseHtml(page, url) == WithCards(h, page);
  }

  /** No card of the other section fills a criterion. */
  lemma OtherSectionFillsNothing(sec: Section, cards: seq<Card>, c: Criterion)
    requires sec != SectionOf(c)
    ensures LastFilling(sec, cards, c).None?
  {
    forall j | 0 <= j < |cards| ensures !Fills(sec, cards[j], c) {
      var t := cards[j].title;
      assert t.Some? && Slot(sec, t.value) == Some(c) ==> SectionOf(c) == sec;
    }
  }

  /** Each criterion's score and description come from the last card of
      its own section that fills it, and are `"-"` when no card does. */
  lemma ParseHtmlCriterion(page: Page, url: string, c: Criterion)
    ensures Score(c) in ParseHtml(page, url) && ScoreDescription(c) in ParseHtml(page, url)
    ensures var r := ParseHtml(page, url);
            var cards := if SectionOf(c) == Audience then page.audienceCards else page.technicalCards;
            match LastFilling(SectionOf(c), cards, c)
            case None => r[Score(c)] == Dash && r[ScoreDescription(c)] == Dash
            case Some(i) => r[Score(c)] == CardScore(cards[i]) && r[ScoreDescription(c)] == CardDescription(cards[i])
  {
    var h := Header(url, ReadScore(page.overallScore), ReadHeadline(page.headline));
    assert HasCriteria(h);
    BothSections(h, page, c);
  }

  /** The two card loops together: a criterion ends up with the last card
      of its own section that fills it, or keeps `"-"`. */
  lemma BothSections(h: Record, page: Page, c: Criterion)
    requires HasCriteria(h) && h[Score(c)] == Dash && h[ScoreDescription(c)] == Dash
    ensures var r := WithCards(h, page);
            var cards := if SectionOf(c) == Audience then page.audienceCards else page.technicalCards;
            && Score(c) in r && ScoreDescription(c) in r
            && match LastFilling(SectionOf(c), cards, c)
               case None => r[Score(c)] == Dash && r[ScoreDescription(c)] == Dash
               case Some(i) => r[Score(c)] == CardScore(cards[i]) && r[ScoreDescription(c)] == CardDescription(cards[i])
  {
    var r := ApplyCards(h, Audience, page.audienceCards);
    ApplyCardsLastWins(h, Audience, page.audienceCards, c);
    ApplyCardsLastWins(r, Technical, page.technicalCards, c);
    if SectionOf(c) == Audience {
      OtherSectionFillsNothing(Technical, page.technicalCards, c);
    } else {
      OtherSectionFillsNothing(Audience, page.audienceCards, c);
    }
  }

  /** A page with nothing on it yields the initial record. */
  lemma EmptyPage(url: string)
    ensures ParseHtml(Page(None, None, [], []), url) == InitialRecord(CompanyName(url), url)
  {
  }

  /** The columns of the results table, in order. Each column of
      `app.py`'s table is headed by its field's own key. */
  const Columns: seq<Field> := [
    Company, Url, OverallScore, Description,
    Score(Consumer), ScoreDescription(Consumer),
    Score(Developer), ScoreDescription(Developer),
    Score(Investor), ScoreDescription(Investor),
    Score(Clarity), ScoreDescription(Clarity),
    Score(VisualDesign), ScoreDescription(VisualDesign),
    Score(Ux), ScoreDescription(Ux),
    Score(Trust), ScoreDescription(Trust),
    Score(ValueProp), ScoreDescription(ValueProp)
  ]

  /** The table of the results page: record field and column heading. */
  function TableRows(): (rows: seq<(Field, string)>)
    ensures |rows| == |Columns| == 20
    ensures forall i :: 0 <= i < |rows| ==> rows[i] == (Columns[i], Columns[i].Key())
    ensures forall f: Field :: !f.Raw? <==> exists i :: 0 <= i < |rows| && rows[i].0 == f
    ensures forall i, j :: 0 <= i < j < |rows| ==> rows[i].0 != rows[j].0 && rows[i].1 != rows[j].1
  {
    ColumnsDistinct();
    TableRowsCoverFields();
    seq(|Columns|, i requires 0 <= i < |Columns| => (Columns[i], Columns[i].Key()))
  }

  /** No field is listed twice, so no heading is either. */
  lemma ColumnsDistinct()
    ensures forall i, j :: 0 <= i < j < |Columns| ==> Columns[i] != Columns[j] && Columns[i].Key() != Columns[j].Key()
  {
    forall i, j | 0 <= i < j < |Columns| ensures Columns[i] != Columns[j] && Columns[i].Key() != Columns[j].Key() {
      KeyInjective(Columns[i], Columns[j]);
    }
  }

  /** No field has two rows in the table. */
  lemma TableRowsDistinct()
    ensures forall i, j :: 0 <= i < j < |TableRows()| ==> TableRows()[i].0 != TableRows()[j].0
  {
  }

  /** The table has a column for every field of the record, the raw text
      aside, and for nothing else. */
  lemma TableRowsCoverFields()
    ensures forall f: Field :: !f.Raw? <==> exists i :: 0 <= i < |Columns| && Columns[i] == f
  {
    forall f: Field | !f.Raw?
      ensures exists i :: 0 <= i < |Columns| && Columns[i] == f
    {
      match f
      case Company => assert Columns[0] == f;
      case Url => assert Columns[1] == f;
      case OverallScore => assert Columns[2] == f;
      case Description => assert Columns[3] == f;
      case Score(c) => {
        match c
        case Consumer => assert Columns[4] == f;
        case Developer => assert Columns[6] == f;
        case Investor => assert Columns[8] == f;
        case Clarity => assert Columns[10] == f;
        case VisualDesign => assert Columns[12] == f;
        case Ux => assert Columns[14] == f;
        case Trust => assert Columns[16] == f;
        case ValueProp => assert Columns[18] == f;
      }
      case ScoreDescription(c) => {
        match c
        case Consumer => assert Columns[5] == f;
        case Developer => assert Columns[7] == f;
        case Investor => assert Columns[9] == f;
        case Clarity => assert Columns[11] == f;
        case VisualDesign => assert Columns[13] == f;
        case Ux => assert Columns[15] == f;
        case Trust => assert Columns[17] == f;
        case ValueProp => assert Columns[19] == f;
      }
    }
  }
}
