/**
  `limpar_string_json` and the decode step of `generate_cv` that follows it.
  The payload is located by a heuristic, not a parser: the slice from the
  first `{` to the last `}` inclusive. The JSON library (`json.loads`,
  `json.dumps`) is foreign code and enters as the parameters `loads` and
  `dumps`, with `None` standing for a `JSONDecodeError`.
 */
module Extract {
  import opened Wrappers
  import opened Text

  /**
    Positions `i` and `j` delimit the payload: `{` at `i` with no `{`
    before it, `}` at `j` with no `}` after it, and `i` before `j`.
   */
  predicate IsBraceSpan(text: string, i: int, j: int)
  {
    && 0 <= i < j < |text|
    && text[i] == '{' && '{' !in text[..i]
    && text[j] == '}' && '}' !in text[j + 1..]
  }

  /**
    The locate-and-slice step of `limpar_string_json`. It gives up exactly
    when no `}` occurs at or after a `{`; otherwise the result is the
    slice of a brace span.
   */
  function BraceSlice(text: string): (r: Option<string>)
    ensures r.None? <==>
      !exists i, j :: 0 <= i <= j < |text| && text[i] == '{' && text[j] == '}'
    ensures r.Some? ==>
      exists i, j :: IsBraceSpan(text, i, j) && r.value == text[i..j + 1]
  {
    var start := Find(text, '{');
    if start == -1 then None
    else
      var end := RFind(text, '}');
      if end == -1 || end < start then
        None
      else
        assert IsBraceSpan(text, start, end);
        Some(text[start..end + 1])
  }

  /** A brace span is unique, and its slice is what `BraceSlice` returns. */
  lemma BraceSpanDetermines(text: string, i: int, j: int)
    requires IsBraceSpan(text, i, j)
    ensures BraceSlice(text) == Some(text[i..j + 1])
  {
    FindIsFirst(text, '{', i);
    RFindIsLast(text, '}', j);
  }

  /**
    A payload opening with `{` and closing with `}`, set in prose that has
    no `{` before it and no `}` after it, is extracted exactly.
   */
  lemma EmbeddedPayload(before: string, payload: string, after: string)
    requires |payload| >= 2 && payload[0] == '{' && payload[|payload| - 1] == '}'
    requires '{' !in before && '}' !in after
    ensures BraceSlice(before + payload + after) == Some(payload)
  {
    var text := before + payload + after;
    var i, j := |before|, |before| + |payload| - 1;
    assert text[..i] == before;
    assert text[j + 1..] == after;
    assert text[i..j + 1] == payload;
    BraceSpanDetermines(text, i, j);
  }

  /** On success the slice opens with `{`, closes with `}` and is at least two long. */
  lemma SliceShape(text: string)
    requires BraceSlice(text).Some?
    ensures var p := BraceSlice(text).value;
      |p| >= 2 && p[0] == '{' && p[|p| - 1] == '}'
  {
  }

  /**
    `limpar_string_json(texto, indentacao)`: `None` when there is no brace
    span or `loads` rejects its slice, otherwise the re-serialised value.
   */
  function CleanJson<J>(text: string, loads: string -> Option<J>, dumps: (J, int) -> string, indent: int)
    : (r: Option<string>)
    ensures r.Some? <==> BraceSlice(text).Some? && loads(BraceSlice(text).value).Some?
    ensures r.Some? ==> r.value == dumps(loads(BraceSlice(text).value).value, indent)
  {
    match BraceSlice(text)
    case None => None
    case Some(payload) =>
      match loads(payload)
      case None => None
      case Some(data) => Some(dumps(data, indent))
  }

  /** Why `generate_cv` stops before rendering. */
  datatype ExtractError =
    | NoJsonInResponse            // `limpar_string_json` returned None
    | UndecodableJson(text: string) // the cleaned text failed to parse again

  /**
    Lines 182-194 of `generate_cv`: clean the model's reply (indent 2), then
    parse the cleaned text once more to get the résumé record.
   */
  function ExtractRecord<J>(reply: string, loads: string -> Option<J>, dumps: (J, int) -> string)
    : (r: Result<J, ExtractError>)
    ensures r == Err(NoJsonInResponse) <==>
      BraceSlice(reply).None? || loads(BraceSlice(reply).value).None?
    ensures r.Ok? <==>
      CleanJson(reply, loads, dumps, 2).Some? && loads(CleanJson(reply, loads, dumps, 2).value).Some?
    ensures r.Ok? ==> loads(CleanJson(reply, loads, dumps, 2).value) == Some(r.value)
    ensures r.Err? && r.error.UndecodableJson? ==>
      CleanJson(reply, loads, dumps, 2).Some? && r.error.text == CleanJson(reply, loads, dumps, 2).value
  {
    match CleanJson(reply, loads, dumps, 2)
    case None => Err(NoJsonInResponse)
    case Some(cleaned) =>
      match loads(cleaned)
      case None => Err(UndecodableJson(cleaned))
      case Some(record) => Ok(record)
  }

  /**
    When the JSON library round-trips the parsed value, the second parse
    cannot fail and the record is the value parsed from the brace slice.
   */
  lemma ExtractRecordRoundTrip<J>(reply: string, loads: string -> Option<J>, dumps: (J, int) -> string, record: J)
    requires BraceSlice(reply).Some? && loads(BraceSlice(reply).value) == Some(record)
    requires loads(dumps(record, 2)) == Some(record)
    ensures ExtractRecord(reply, loads, dumps) == Ok(record)
  {
  }

  /**
    The unit-test inputs without a brace pair are rejected; the inputs are
    held as parameters fixed by `requires`, which keeps the solver from
    unfolding the literals eagerly.
   */
  lemma NoBracePairExamples(plain: string, closeOnly: string, openOnly: string)
    requires plain == "apenas um texto qualquer"
    requires closeOnly == "\"nome\": \"Valor\" }"
    requires openOnly == "{ \"nome\": \"Valor\""
    ensures BraceSlice(plain) == None
    ensures BraceSlice(closeOnly) == None
    ensures BraceSlice(openOnly) == None
  {
    assert '{' !in plain;
    assert '{' !in closeOnly;
    assert '}' !in openOnly;
  }
  /**
    The unit-test input with prose around an object yields exactly the
    object; its pieces are held as parameters fixed by `requires`, which
    keeps the solver from unfolding the literals eagerly.
   */
  lemma EmbeddedObjectExample(before: string, payload: string, after: string)
    requires before == "algum texto " && after == " mais texto"
    requires payload == "{ \"nome\": \"Valor\", \"idade\": 30 }"
    ensures BraceSlice(before + payload + after) == Some(payload)
  {
    EmbeddedPayload(before, payload, after);
  }
}
