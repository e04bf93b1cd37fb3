/**
  The list shaping `generate_cv` does before drawing the left column: the
  skill names two to a row, and one text line per certification.
 */
module Cv {
  import opened Sanitize
  import opened Json

  /** The rows read left to right, top to bottom. */
  function Flatten<T>(rows: seq<seq<T>>): seq<T>
  {
    if |rows| == 0 then [] else Flatten(rows[..|rows| - 1]) + rows[|rows| - 1]
  }

  /**
    The skills loop: `for i in range(0, len(skills_list), 2)` draws
    `skills_list[i]` and, when it exists, `skills_list[i + 1]` on one row.
    There are ⌈n/2⌉ rows, read in order they give the skill names back,
    row `r` holds name `2r` and, whenever it exists, name `2r + 1`, every
    row but the last is full, and the last row holds a single name
    exactly when the count is odd.
   */
  method PairSkills<T>(names: seq<T>) returns (rows: seq<seq<T>>)
    ensures |rows| == (|names| + 1) / 2
    ensures Flatten(rows) == names
    ensures forall r :: 0 <= r < |rows| ==> 1 <= |rows[r]| <= 2 && rows[r][0] == names[2 * r]
    ensures forall r :: 0 <= r < |rows| && 2 * r + 1 < |names| ==> |rows[r]| == 2 && rows[r][1] == names[2 * r + 1]
    ensures forall r :: 0 <= r < |rows| - 1 ==> |rows[r]| == 2
    ensures |rows| > 0 ==> (|rows[|rows| - 1]| == 1 <==> |names| % 2 == 1)
  {
    rows := [];
    var i := 0;
    while i < |names|
      invariant 0 <= i <= |names| + 1 && i % 2 == 0
      invariant i < |names| ==> |rows| == i / 2
      invariant i >= |names| ==> |rows| == (|names| + 1) / 2
      invariant Flatten(rows) == names[..if i < |names| then i else |names|]
      invariant forall r :: 0 <= r < |rows| ==> 1 <= |rows[r]| <= 2 && rows[r][0] == names[2 * r]
      invariant forall r :: 0 <= r < |rows| && 2 * r + 1 < |names| ==> |rows[r]| == 2 && rows[r][1] == names[2 * r + 1]
      invariant forall r :: 0 <= r < |rows| - 1 ==> |rows[r]| == 2
      invariant |rows| > 0 ==> (|rows[|rows| - 1]| == 1 <==> i > |names|)
    {
      var row := [names[i]];
      if i + 1 < |names| {
        row := row + [names[i + 1]];
      }
      assert Flatten(rows + [row]) == Flatten(rows) + row;
      rows := rows + [row];
      i := i + 2;
    }
  }

  /**
    One certification line, `f"{name} - {date}"` drawn through
    `sanitize_text`: both fields sanitised separately around an untouched
    `" - "`, no target code point left, and a certification with neither
    field draws `" - "`.
   */
  function CertificationLine(cert: Object): (line: string)
    ensures line == SanitizeText(Show(Field(cert, "name"))) + " - " + SanitizeText(Show(Field(cert, "date")))
    ensures Clean(line)
    ensures "name" !in cert && "date" !in cert ==> line == " - "
  {
    var name, date := Show(Field(cert, "name")), Show(Field(cert, "date"));
    assert Clean(" - ");
    SanitizeJoined(name, " - ", date);
    SanitizedPair(name, " - ", date)
  }
}
