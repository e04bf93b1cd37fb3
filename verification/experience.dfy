/**
  The text of one professional-experience entry (`PDF._adicionar_experiencia`):
  a company line, a title line, then one bullet per line of the description.
  Every string is passed through `sanitize_text` before it is drawn.
 */
module Experience {
  import opened Wrappers
  import opened Text
  import opened Sanitize
  import opened Json

  /** The shown text of each value, in order. */
  function ShowAll(vs: seq<Value>): (r: seq<string>)
    ensures |r| == |vs|
    ensures forall k :: 0 <= k < |vs| ==> r[k] == Show(vs[k])
  {
    seq(|vs|, k requires 0 <= k < |vs| => Show(vs[k]))
  }

  /**
    `details`: a string description is cut at every line break, giving one
    more line than it has breaks, none containing a break, and the lines
    rejoined with breaks give the description back. Any other value is
    kept whole as the single detail.
   */
  function Details(description: Value): (details: seq<Value>)
    ensures description.NonStr? ==> details == [description]
    ensures description.Str? ==>
      && |details| == Count(description.text, '\n') + 1
      && (forall k :: 0 <= k < |details| ==> details[k].Str? && '\n' !in details[k].text)
      && Join(ShowAll(details), '\n') == description.text
  {
    match description
    case Str(s) =>
      var lines := Split(s, '\n');
      var details := seq(|lines|, k requires 0 <= k < |lines| => Str(lines[k]));
      assert ShowAll(details) == lines;
      details
    case NonStr(_) => [description]
  }

  /**
    One bullet: `"- "` and the stripped line, sanitised. Sanitising leaves
    the dash prefix alone, the bullet holds no target code point and no line
    break. A non-string detail has no `strip()`: the call raises and the
    whole generation stops, shown here as `None`.
   */
  function Bullet(detail: Value): (r: Option<string>)
    ensures r.Some? <==> detail.Str?
    ensures r.Some? ==> r.value == "- " + SanitizeText(Strip(detail.text))
    ensures r.Some? ==> Clean(r.value)
    ensures r.Some? && '\n' !in detail.text ==> '\n' !in r.value
  {
    match detail
    case Str(line) =>
      BulletOfLine(line);
      Some(SanitizeText("- " + Strip(line)))
    case NonStr(_) => None
  }

  /** The dash prefix survives sanitising, and a line without a break yields a bullet without one. */
  lemma BulletOfLine(line: string)
    ensures SanitizeText("- " + Strip(line)) == "- " + SanitizeText(Strip(line))
    ensures '\n' !in line ==> '\n' !in SanitizeText("- " + Strip(line))
  {
    var stripped := Strip(line);
    SanitizeConcat("- ", stripped);
    assert Clean("- ");
    if '\n' !in line {
      StripKeepsAbsent(line, '\n');
      SanitizeKeepsOthers("- " + stripped, '\n');
      CountConcat("- ", stripped, '\n');
    }
  }

  /**
    The bullets of all details in order; `None` when some detail is not a
    string, since its `strip()` raises before the entry is finished.
   */
  function Bullets(details: seq<Value>): (r: Option<seq<string>>)
    ensures r.Some? <==> forall k :: 0 <= k < |details| ==> details[k].Str?
    ensures r.Some? ==> |r.value| == |details|
    ensures r.Some? ==> forall k :: 0 <= k < |details| ==> Bullet(details[k]) == Some(r.value[k])
  {
    if forall k :: 0 <= k < |details| ==> details[k].Str? then
      Some(seq(|details|, k requires 0 <= k < |details| => Bullet(details[k]).value))
    else
      None
  }

  /**
    The company line, `f"{company} - {location}"` sanitised: the two fields
    are sanitised separately and the separator is left alone.
   */
  function CompanyLine(exp: Object): (line: string)
    ensures line == SanitizeText(Show(Field(exp, "company"))) + " - " + SanitizeText(Show(Field(exp, "location")))
  {
    var company, location := Show(Field(exp, "company")), Show(Field(exp, "location"));
    assert Clean(" - ");
    SanitizeJoined(company, " - ", location);
    SanitizedPair(company, " - ", location)
  }

  /**
    The title line, `f"{title}, {duration}"` sanitised: the two fields are
    sanitised separately and the separator is left alone.
   */
  function TitleLine(exp: Object): (line: string)
    ensures line == SanitizeText(Show(Field(exp, "title"))) + ", " + SanitizeText(Show(Field(exp, "duration")))
  {
    var title, duration := Show(Field(exp, "title")), Show(Field(exp, "duration"));
    SanitizeJoined(title, ", ", duration);
    SanitizedPair(title, ", ", duration)
  }

  /**
    Every string drawn for one experience entry, in drawing order: the
    company line, the title line, then the bullets. Only a string (or
    missing) description lets the entry finish.
   */
  function ExperienceTexts(exp: Object): (r: Option<seq<string>>)
    ensures r.Some? <==> Field(exp, "description").Str?
    ensures r.Some? ==> |r.value| >= 3 && r.value[..2] == [CompanyLine(exp), TitleLine(exp)]
  {
    var details := Details(Field(exp, "description"));
    assert Field(exp, "description").NonStr? ==> !details[0].Str?;
    match Bullets(details)
    case None => None
    case Some(bullets) => Some([CompanyLine(exp), TitleLine(exp)] + bullets)
  }

  /** The details of a string description are exactly its lines. */
  lemma DetailsAreLines(desc: string)
    ensures ShowAll(Details(Str(desc))) == Split(desc, '\n')
  {
    var shown := ShowAll(Details(Str(desc)));
    assert forall k :: 0 <= k < |shown| ==> '\n' !in shown[k];
    SplitJoin(shown, '\n');
  }

  /**
    A string description draws one bullet per line — one more than it has
    line breaks — in order after the two head lines, each the dash and the
    sanitised stripped line.
   */
  lemma ExperienceBullets(exp: Object, desc: string)
    requires Field(exp, "description") == Str(desc)
    ensures ExperienceTexts(exp).Some?
    ensures var texts := ExperienceTexts(exp).value;
      var lines := Split(desc, '\n');
      && |texts| == Count(desc, '\n') + 3
      && forall k :: 0 <= k < |lines| ==> texts[k + 2] == "- " + SanitizeText(Strip(lines[k]))
  {
    var details := Details(Str(desc));
    DetailsAreLines(desc);
    var lines := Split(desc, '\n');
    assert |lines| == |details|;
    var bullets := Bullets(details).value;
    var texts := ExperienceTexts(exp).value;
    assert texts == [CompanyLine(exp), TitleLine(exp)] + bullets;
    forall k | 0 <= k < |lines|
      ensures texts[k + 2] == "- " + SanitizeText(Strip(lines[k]))
    {
      assert lines[k] == Show(details[k]) == details[k].text;
      assert Bullet(details[k]) == Some(bullets[k]);
      assert texts[k + 2] == bullets[k];
    }
  }

  /** An entry without a description still draws exactly one bullet, `"- "`. */
  lemma MissingDescriptionOneBullet(exp: Object)
    requires "description" !in exp
    ensures ExperienceTexts(exp).Some? && |ExperienceTexts(exp).value| == 3
    ensures ExperienceTexts(exp).value[2] == "- "
  {
    ExperienceBullets(exp, "");
    assert Strip("") == "";
  }
}
