/**
  The fields of a site's result record, shared by both result pages. The
  record is a dictionary keyed by field name; here a key is a `Field`, and
  `Key` gives the name the dictionary uses for it.
 */
module Fields {

  /** The eight rated criteria: three audiences and five technical ones. */
  datatype Criterion = Consumer | Developer | Investor | Clarity | VisualDesign | Ux | Trust | ValueProp
  {
    /** The criterion as it is written in field names. */
    function Name(): string {
      match this
      case Consumer => "Consumer"
      case Developer => "Developer"
      case Investor => "Investor"
      case Clarity => "Clarity"
      case VisualDesign => "Visual Design"
      case Ux => "UX"
      case Trust => "Trust"
      case ValueProp => "Value Prop"
    }
  }

  datatype Field =
    | Company
    | Url
    | OverallScore
    | Description
    | Score(c: Criterion)
    | ScoreDescription(c: Criterion)
    | Raw
  {
    /** The dictionary key of the field. */
    function Key(): string {
      match this
      case Company => "Company"
      case Url => "URL"
      case OverallScore => "Overall Score"
      case Description => "Description of Website"
      case Score(c) => c.Name() + " Score"
      case ScoreDescription(c) => c.Name() + " Score Description"
      case Raw => "_raw"
    }
  }

  /** A result record: field to text, `"-"` where nothing was found. */
  type Record = map<Field, string>

  /** The placeholder for a field that was not found. */
  const Dash: string := "-"

  /** Different criteria have different names. */
  lemma NameInjective(c: Criterion, d: Criterion)
    requires c.Name() == d.Name()
    ensures c == d
  {
    assert c.Name()[0] == d.Name()[0];
    assert |c.Name()| == |d.Name()|;
  }

  /** A score's key differs from the key of every field that is not a
      score. */
  lemma ScoreKeyUnlikeOthers(c: Criterion, g: Field)
    requires !g.Score?
    ensures Score(c).Key() != g.Key()
  {
    var k := Score(c).Key();
    assert k[|k| - 1] == 'e' && k[0] != 'O' && |k| < 22;
  }

  /** A score description's key differs from the key of every field that
      is not a score description. */
  lemma DescriptionKeyUnlikeOthers(c: Criterion, g: Field)
    requires !g.ScoreDescription?
    ensures ScoreDescription(c).Key() != g.Key()
  {
    var k := ScoreDescription(c).Key();
    assert k[|k| - 1] == 'n';
  }

  lemma ScoreKeyInjective(c: Criterion, d: Criterion)
    ensures Score(c).Key() == Score(d).Key() ==> c == d
  {
    var k := Score(c).Key();
    if k == Score(d).Key() {
      assert c.Name() == k[..|k| - 6] == d.Name();
      NameInjective(c, d);
    }
  }

  lemma DescriptionKeyInjective(c: Criterion, d: Criterion)
    ensures ScoreDescription(c).Key() == ScoreDescription(d).Key() ==> c == d
  {
    var k := ScoreDescription(c).Key();
    if k == ScoreDescription(d).Key() {
      assert c.Name() == k[..|k| - 18] == d.Name();
      NameInjective(c, d);
    }
  }

  /** Different fields have different dictionary keys, so the dictionary
      holds exactly one entry per field. */
  lemma KeyInjective(f: Field, g: Field)
    ensures f.Key() == g.Key() <==> f == g
  {
    match (f, g)
    case (Score(c), Score(d)) => ScoreKeyInjective(c, d);
    case (ScoreDescription(c), ScoreDescription(d)) => DescriptionKeyInjective(c, d);
    case (Score(c), _) => ScoreKeyUnlikeOthers(c, g);
    case (_, Score(d)) => ScoreKeyUnlikeOthers(d, f);
    case (ScoreDescription(c), _) => DescriptionKeyUnlikeOthers(c, g);
    case (_, ScoreDescription(d)) => DescriptionKeyUnlikeOthers(d, f);
    case _ =>
  }
}
