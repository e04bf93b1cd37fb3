# Résumé generator helpers — a verified model

The repository turns a base résumé and a job description into a tailored
PDF: a generative model rewrites the résumé as JSON, `limpar_string_json`
cuts the JSON out of the model's reply, and `generate_cv` draws it with
FPDF in two columns. This project models the pure string and list logic
of `main.py` in Dafny and proves what it does:

- `sanitize_text`, the rewrite of U+2019, U+2013 and U+2026 to ASCII
  (`sanitize.dfy`), as the three sequential `str.replace` calls of the
  source, proved equal to a per-character flat-map;
- the brace-slice step of `limpar_string_json` and the decode step of
  `generate_cv` (`extract.dfy`), with the JSON library as opaque
  `loads`/`dumps` parameters;
- the header's name split and contact-row offsets (`header.dfy`);
- the text of one professional-experience entry: company line, title line
  and one dash bullet per description line (`experience.dfy`);
- the skills pairing, two names per row, and the certification lines
  (`cv.dfy`).

`text.dfy` holds the Python `str` operations these rely on (`find`,
`rfind`, `split` with a one-character separator, `join`, `strip` with
Python's whitespace set), and `json.dfy` the view of a parsed JSON object
(`obj.get(key, "")` and f-string display).

Some behaviours of the code are easy to miss; the model follows the code:

- `limpar_string_json` returns `None` for a missing `{`, a missing or
  misplaced `}` and a JSON decode error alike; there are no separate error
  kinds. `generate_cv` therefore reports all three as one
  "no valid JSON" failure (`Extract.ExtractRecord`).
- Not every drawn string is sanitised: the header's name, title and
  contact texts and the language rows reach FPDF without `sanitize_text`
  (the name and title are only upper-cased). The model
  sanitises exactly where the code calls `sanitize_text`.
- The name is split on the single character `" "`, not on whitespace in
  general: `"Ana  Lima"` gives first name `"Ana"` and last name `" Lima"`.
- A description that is not a string becomes the single detail
  `[description]`, but its `strip()` then raises, so generation stops:
  `Experience.Bullet` and `Experience.ExperienceTexts` return `None` there.

## Model

| member | source | states |
|---|---|---|
| Text.Find | main.py:58 | `find` gives -1 exactly when the character is absent, otherwise an index holding it with none before it |
| Text.RFind | main.py:61 | `rfind` gives -1 exactly when the character is absent, otherwise an index holding it with none after it |
| Text.FindIsFirst | main.py:58 | a position holding the character with none before it is the one `find` returns |
| Text.RFindIsLast | main.py:61 | a position holding the character with none after it is the one `rfind` returns |
| Text.Join | main.py:93 | `" ".join(pieces)` starts with the first piece, followed by the separator when more pieces come, and adds exactly one separator per further piece when no piece holds one; `Text.SplitJoin` shows that splitting undoes it |
| Text.Split | main.py:91 | `split(sep)` gives one more piece than separators, no piece holds the separator, and joining the pieces with it gives the input back |
| Text.SplitJoin | main.py:91 | splitting undoes joining for separator-free pieces, so the split is the unique such decomposition |
| Text.Strip | main.py:155 | `strip()` keeps the infix between the first and last non-whitespace characters; everything removed is whitespace |
| Text.StripIdempotent | main.py:155 | stripping a stripped line changes nothing |
| Text.StripKeepsAbsent | main.py:155 | stripping introduces no character: a line without a break strips to one without a break |
| Sanitize.Replace | main.py:51-52 | `replace` leaves a text without the target alone, removes every target when the replacement lacks it, and changes the length by the replacement's extra length per occurrence |
| Sanitize.SanitizeChars | main.py:46-52 | the per-character substitution yields text free of the three code points, two characters longer per ellipsis |
| Sanitize.ReplaceAllIsCharMap | main.py:51-52 | the three sequential replacements in dictionary order equal the per-character substitution |
| Sanitize.SanitizeText | main.py:44-53 | `sanitize_text` equals the per-character substitution, leaves none of U+2019, U+2013, U+2026, grows by 2 per ellipsis, and returns its input exactly when the input holds none of them |
| Sanitize.CleanIsFixedPoint | main.py:46-52 | the substitution is the identity exactly on texts without the three code points |
| Sanitize.SanitizeIdempotent | main.py:44-53 | sanitising twice equals sanitising once |
| Sanitize.SanitizeConcat | main.py:44-53 | sanitising a concatenation sanitises each part |
| Sanitize.SanitizeKeepsOthers | main.py:46-52 | every character other than the targets and `'`, `-`, `.` occurs as often after sanitising as before |
| Sanitize.SanitizeAfterClean | main.py:44-53 | a target-free prefix passes through and the next character is substituted |
| Sanitize.SanitizeQuoteDashEllipsis | main.py:44-53 | a text with one quote, one dash and a final ellipsis between clean pieces gets exactly those three rewritten |
| Sanitize.SanitizeUnitTestVector | tests.py:32-36 | the unit-test sentence comes out with `'`, `-` and `...` |
| Sanitize.SanitizeCafeExample | main.py:44-53 | `"café ’s – done…"` becomes `"café 's - done..."` |
| Extract.BraceSlice | main.py:58-64 | the slice is missing exactly when no `}` occurs at or after a `{`; otherwise it runs from the first `{` to the last `}` inclusive |
| Extract.BraceSpanDetermines | main.py:58-64 | any first-`{`/last-`}` span with the open brace first is the one returned, so the result is unique |
| Extract.EmbeddedPayload | main.py:58-64 | a `{…}` payload between text with no `{` before it and no `}` after it is extracted exactly |
| Extract.SliceShape | main.py:58-64 | a returned slice opens with `{`, closes with `}` and has length at least 2 |
| Extract.CleanJson | main.py:55-68 | `limpar_string_json` succeeds exactly when there is a slice and it parses, and then returns the re-serialised value |
| Extract.ExtractRecord | main.py:182-194 | generation stops with "no valid JSON" exactly when there is no slice or the slice does not parse; the record is produced exactly when the cleaned text parses again, and is that parse's value; a failed second parse reports the cleaned text that is printed for debugging |
| Extract.ExtractRecordRoundTrip | main.py:182-194 | when the JSON library round-trips the value, the second parse succeeds and the record is the value parsed from the slice |
| Extract.NoBracePairExamples | tests.py:44-54 | plain text, a `}` alone and a `{` alone are all rejected |
| Extract.EmbeddedObjectExample | tests.py:38-42 | the object inside the unit-test prose is extracted exactly |
| Json.Field | main.py:137-141 | `obj.get(key, "")`: a present key reads as its value, a missing key reads as `Str("")` |
| Header.SplitName | main.py:91-93 | the first name is the space-free text before the first space; with a space the halves rebuild the name around it; without one the first name is the whole name and the last name is empty |
| Header.SplitNameExample | main.py:91-93 | `"John Doe"` splits into `"John"` and `"Doe"` |
| Header.ContactOffsets | main.py:110-119 | the icons sit at 0, 40, 80 and 125 from the row start, each text cell ends before the next icon, and the row fits in `total_width` |
| Experience.Details | main.py:142 | a string description gives one line per line break plus one, none containing a break, rejoining to the description; any other value is the single detail |
| Experience.DetailsAreLines | main.py:142 | the details of a string description are exactly its `split('\n')` lines |
| Experience.Bullet | main.py:155 | a string line becomes `"- "` plus the sanitised stripped line, clean and break-free; a non-string detail fails |
| Experience.Bullets | main.py:153-156 | all bullets are produced, in order, exactly when every detail is a string |
| Experience.CompanyLine | main.py:146 | the company line sanitises company and location separately around `" - "` |
| Experience.TitleLine | main.py:150 | the title line sanitises title and duration separately around `", "` |
| Experience.ExperienceTexts | main.py:135-157 | an entry finishes exactly when its description is a string or missing, and then starts with the company and title lines |
| Experience.ExperienceBullets | main.py:142-156 | a string description draws one more bullet than it has line breaks, after the two head lines, the k-th being `"- "` plus the sanitised stripped k-th line |
| Experience.MissingDescriptionOneBullet | main.py:141-155 | an entry without a description draws exactly one bullet, `"- "` |
| Cv.PairSkills | main.py:229-235 | skills are drawn ⌈n/2⌉ rows of at most two, row r holding name 2r and, when it exists, name 2r+1, in order, every row but the last full, and the last holds one name exactly when n is odd |
| Cv.CertificationLine | main.py:255-258 | a certification line sanitises name and date separately around `" - "`, holds no target code point, and is `" - "` when both are missing |

## Left out

- FPDF drawing and the cursor (`cell`, `multi_cell`, `get_y`, `line`, `image`, `ln`, `output`), font loading and page breaks: they depend on a library's font metrics and wrapping, so no vertical position is modelled.
- `json.loads` and `json.dumps`: foreign code, passed in as the opaque functions `loads` and `dumps`; any exception `json.loads` raises is folded into its `None`.
- The generative-model client, environment and dotenv loading, `ler_arquivo` and the prompt text: network and file I/O.
- Floating-point geometry: the page width `self.w`, the centring of the contact row and `SKILL_COLUMN_WIDTH`; contact offsets are stated relative to the row's start.
- Upper-casing of the name and title in the header: Unicode case mapping is not modelled, so `Header.SplitName` returns the halves before `.upper()`.
- The profile paragraph, the education lines and the language rows are not modelled: the profile and education strings are passed through `sanitize_text`, the education line first joining institution and years with a space (main.py:205, 218, 221); language rows are drawn unsanitised, the proficiency in parentheses (main.py:246-247). They add no logic beyond `Sanitize.SanitizeText` and string formatting.
- A non-string name (`.split` would raise): `Header.SplitName` takes a string.
- Experience.ExperienceTexts: an entry of `professional_experience` that is not a JSON object makes `exp.get` raise (main.py:137) and aborts generation; the `Object` parameter type excludes such entries.
- Cv.CertificationLine: a certification that is not a JSON object makes `cert.get` raise (main.py:256) and aborts generation; the `Object` parameter type excludes such entries.
- Cv.PairSkills: `skills` as a JSON array holding a non-string makes `sanitize_text` raise on `.replace` (main.py:232), and a `skills` value that is not iterable (a number or `null`) makes `list()` raise (main.py:229); object keys from `json.loads` are always strings, so the model takes a list of names and neither error path is modelled.
- Python's `str()` of a non-string JSON value is carried as given in `Json.NonStr`, not computed.
- Insertion order of the skills object: Dafny maps are unordered, so `Cv.PairSkills` takes the key list in insertion order; each drawn cell is then `sanitize_text` of its key.
- Lone surrogate code points, which Python strings may hold and Dafny characters cannot.
