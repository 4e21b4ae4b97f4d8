/**
  The record `app_complete.py` builds from the plain result text of one
  site: each field is found by trying a list of labels in order, the first
  label whose pattern matches wins, and a field no label finds is `"-"`.
 */
module TextRecord {
  import opened Wrappers
  import opened Text
  import opened LabelSearch
  import opened Fields

  /** The index of the first present element. */
  function FirstSome<T>(xs: seq<Option<T>>): (r: Option<nat>)
    ensures r.Some? ==> r.value < |xs| && xs[r.value].Some?
                        && forall j :: 0 <= j < r.value ==> xs[j].None?
    ensures r.None? ==> forall i :: 0 <= i < |xs| ==> xs[i].None?
  {
    if xs == [] then None
    else if xs[0].Some? then Some(0)
    else match FirstSome(xs[1..])
      case None => None
      case Some(i) => Some(i + 1)
  }

  /** The index of the first label whose pattern matches the text. */
  function FirstLabel(pat: Pattern, text: string, labels: seq<string>): (r: Option<nat>)
    ensures r.Some? ==> r.value < |labels| && Group(pat, text, labels[r.value]).Some?
                        && forall j :: 0 <= j < r.value ==> Group(pat, text, labels[j]).None?
    ensures r.None? ==> forall i :: 0 <= i < |labels| ==> Group(pat, text, labels[i]).None?
  {
    var found := seq(|labels|, i requires 0 <= i < |labels| => Group(pat, text, labels[i]));
    assert forall i :: 0 <= i < |labels| ==> found[i] == Group(pat, text, labels[i]);
    FirstSome(found)
  }

  /** Label `labels[i]` is the first of the list to match. */
  predicate FirstToMatch(pat: Pattern, text: string, labels: seq<string>, i: nat) {
    && i < |labels| && Group(pat, text, labels[i]).Some?
    && forall j :: 0 <= j < i ==> Group(pat, text, labels[j]).None?
  }

  /** What a score field can hold: the placeholder or one to three digits. */
  predicate IsScoreText(s: string) {
    s == Dash || (1 <= |s| <= 3 && forall k :: 0 <= k < |s| ==> IsDigit(s[k]))
  }

  /** The first label to match is the one `FirstLabel` finds. */
  lemma FirstLabelIsFirst(pat: Pattern, text: string, labels: seq<string>, i: nat)
    requires FirstToMatch(pat, text, labels, i)
    ensures FirstLabel(pat, text, labels) == Some(i)
  {
    var r := FirstLabel(pat, text, labels);
    assert r.Some?;
  }

  /** `_grab_score`: the digits after the first label that is followed by
      a score, or `"-"` when none is. */
  function GrabScore(text: string, labels: seq<string>): (r: string)
    ensures IsScoreText(r)
  {
    match FirstLabel(ScorePattern, text, labels)
    case None => Dash
    case Some(i) => Group(ScorePattern, text, labels[i]).value
  }

  /** The score comes from the first label whose pattern matches. */
  lemma GrabScoreFirstMatch(text: string, labels: seq<string>, i: nat)
    requires FirstToMatch(ScorePattern, text, labels, i)
    ensures GrabScore(text, labels) == Group(ScorePattern, text, labels[i]).value
  {
    FirstLabelIsFirst(ScorePattern, text, labels, i);
  }

  /** The score is `"-"` exactly when no label's pattern matches: a found
      score is made of digits. */
  lemma GrabScoreDash(text: string, labels: seq<string>)
    ensures GrabScore(text, labels) == Dash <==>
              forall i :: 0 <= i < |labels| ==> Group(ScorePattern, text, labels[i]).None?
  {
    match FirstLabel(ScorePattern, text, labels)
    case None =>
    case Some(i) =>
      var g := Group(ScorePattern, text, labels[i]).value;
      assert IsDigit(g[0]);
  }

  /** `_grab_block`: the stripped text after the first label that matches,
      on the rest of its line (`multiline` false) or up to the next blank
      line, heading line or the end (`multiline` true); `"-"` when no label
      matches. */
  function GrabBlock(text: string, labels: seq<string>, multiline: bool): (r: string)
    ensures Stripped(r)
    ensures !multiline ==> '\n' !in r
  {
    var pat := BlockPatternIf(multiline);
    match FirstLabel(pat, text, labels)
    case None => Dash
    case Some(i) => Strip(Group(pat, text, labels[i]).value)
  }

  /** The block comes from the first label whose pattern matches. */
  lemma GrabBlockFirstMatch(text: string, labels: seq<string>, multiline: bool, i: nat)
    requires FirstToMatch(BlockPatternIf(multiline), text, labels, i)
    ensures GrabBlock(text, labels, multiline) == Strip(Group(BlockPatternIf(multiline), text, labels[i]).value)
  {
    FirstLabelIsFirst(BlockPatternIf(multiline), text, labels, i);
  }

  /** When no label's pattern matches, the block is `"-"`. */
  lemma GrabBlockFallback(text: string, labels: seq<string>, multiline: bool)
    requires forall i :: 0 <= i < |labels| ==> Group(BlockPatternIf(multiline), text, labels[i]).None?
    ensures GrabBlock(text, labels, multiline) == Dash
  {
  }

  /** The pattern `_grab_block` uses in each mode. */
  function BlockPatternIf(multiline: bool): Pattern {
    if multiline then BlockPattern else LinePattern
  }

  /** The labels tried for each field found in the text. */
  const CompanyLabels: seq<string> := ["Company", "Site Name", "Website Name"]
  const OverallLabels: seq<string> := ["Overall Score", "Score", "Total Score"]
  const DescriptionLabels: seq<string> := ["Description of Website", "Description", "Site Description"]

  function ScoreLabels(c: Criterion): seq<string> {
    match c
    case Consumer => ["Consumer Score", "Customer Score", "End-user Score"]
    case Developer => ["Developer Score", "Engineer Score", "Dev Score"]
    case Investor => ["Investor Score"]
    case Clarity => ["Clarity Score", "Readability Score"]
    case VisualDesign => ["Visual Design Score", "Design Score"]
    case Ux => ["UX Score", "Usability Score"]
    case Trust => ["Trust Score", "Credibility Score"]
    case ValueProp => ["Value Prop Score", "Value Proposition Score"]
  }

  /** The fields of this record: everything but the score descriptions. */
  const TextFields: set<Field> := {
    Company, Url, OverallScore, Description,
    Score(Consumer), Score(Developer), Score(Investor), Score(Clarity),
    Score(VisualDesign), Score(Ux), Score(Trust), Score(ValueProp),
    Raw
  }

  lemma TextFieldsAreAllButDescriptions(f: Field)
    ensures f in TextFields <==> !f.ScoreDescription?
  {
    if f.Score? {
      match f.c
      case Consumer => case Developer => case Investor => case Clarity =>
      case VisualDesign => case Ux => case Trust => case ValueProp =>
    }
  }

  /** The value `_parse_fields` stores under each field. */
  function TextValue(url: string, raw: string, f: Field): (v: string)
    requires f in TextFields
  {
    match f
    case Company => GrabBlock(raw, CompanyLabels, false)
    case Url => url
    case OverallScore => GrabScore(raw, OverallLabels)
    case Description => GrabBlock(raw, DescriptionLabels, true)
    case Score(c) => GrabScore(raw, ScoreLabels(c))
    case Raw => raw
  }

  /** `_parse_fields`: the record for one site, with the raw text kept under
      `"_raw"`. */
  function ParseFields(url: string, raw: string): (r: Record)
    ensures forall f :: f in r <==> !f.ScoreDescription?
    ensures Url in r && r[Url] == url
    ensures Raw in r && r[Raw] == raw
    ensures Company in r && Stripped(r[Company]) && '\n' !in r[Company]
    ensures Description in r && Stripped(r[Description])
    ensures OverallScore in r && IsScoreText(r[OverallScore])
    ensures forall c :: Score(c) in r && IsScoreText(r[Score(c)])
  {
    assert forall f :: f in TextFields <==> !f.ScoreDescription? by {
      forall f: Field { TextFieldsAreAllButDescriptions(f); }
    }
    map f | f in TextFields :: TextValue(url, raw, f)
  }

  /** Each criterion's score is taken from the first of its labels that is
      followed by a score, and is `"-"` exactly when none is. */
  lemma ScoreFieldFromLabels(url: string, raw: string, c: Criterion)
    ensures var r := ParseFields(url, raw)[Score(c)];
            && (r == Dash <==> forall i :: 0 <= i < |ScoreLabels(c)| ==> Group(ScorePattern, raw, ScoreLabels(c)[i]).None?)
            && forall i: nat :: FirstToMatch(ScorePattern, raw, ScoreLabels(c), i) ==>
                 r == Group(ScorePattern, raw, ScoreLabels(c)[i]).value
  {
    var labels := ScoreLabels(c);
    assert ParseFields(url, raw)[Score(c)] == GrabScore(raw, labels) by {
      TextFieldsAreAllButDescriptions(Score(c));
    }
    GrabScoreDash(raw, labels);
    forall i: nat | FirstToMatch(ScorePattern, raw, labels, i)
      ensures GrabScore(raw, labels) == Group(ScorePattern, raw, labels[i]).value
    {
      GrabScoreFirstMatch(raw, labels, i);
    }
  }

  /** The table of the results page: record field and column heading. */
  const TableRows: seq<(Field, string)> := [
    (Company, "Company"),
    (Url, "URL"),
    (OverallScore, "Overall Score"),
    (Description, "Description of Website"),
    (Score(Consumer), "Audience Perspective → Consumer"),
    (Score(Developer), "Audience Perspective → Developer"),
    (Score(Investor), "Audience Perspective → Investor"),
    (Score(Clarity), "Technical Criteria → Clarity"),
    (Score(VisualDesign), "Technical Criteria → Visual Design"),
    (Score(Ux), "Technical Criteria → UX"),
    (Score(Trust), "Technical Criteria → Trust"),
    (Score(ValueProp), "Value Proposition")
  ]

  /** No field has two rows in the table. */
  lemma TableRowsDistinct()
    ensures forall i, j :: 0 <= i < j < |TableRows| ==> TableRows[i].0 != TableRows[j].0
  {
  }

  /** The table shows every field of the record except the raw text, and
      nothing else. */
  lemma TableRowsMatchRecord(url: string, raw: string)
    ensures forall f :: f in ParseFields(url, raw) && f != Raw <==>
              exists i :: 0 <= i < |TableRows| && TableRows[i].0 == f
  {
    forall f: Field | !f.ScoreDescription? && f != Raw
      ensures exists i :: 0 <= i < |TableRows| && TableRows[i].0 == f
    {
      match f
      case Company => assert TableRows[0].0 == f;
      case Url => assert TableRows[1].0 == f;
      case OverallScore => assert TableRows[2].0 == f;
      case Description => assert TableRows[3].0 == f;
      case Score(c) =>
        match c
        case Consumer => assert TableRows[4].0 == f;
        case Developer => assert TableRows[5].0 == f;
        case Investor => assert TableRows[6].0 == f;
        case Clarity => assert TableRows[7].0 == f;
        case VisualDesign => assert TableRows[8].0 == f;
        case Ux => assert TableRows[9].0 == f;
        case Trust => assert TableRows[10].0 == f;
        case ValueProp => assert TableRows[11].0 == f;
    }
  }
}
