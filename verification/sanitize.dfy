/**
  `sanitize_text`: the three typographic code points the PDF fonts cannot
  show are rewritten to ASCII — RIGHT SINGLE QUOTATION MARK (U+2019) to `'`,
  EN DASH (U+2013) to `-` and HORIZONTAL ELLIPSIS (U+2026) to `...` — by
  three `str.replace` calls in the dictionary's insertion order.
 */
module Sanitize {
  import opened Text

  const RightQuote: char := '\U{2019}'
  const EnDash: char := '\U{2013}'
  const Ellipsis: char := '\U{2026}'

  /** The code points `sanitize_text` rewrites. */
  predicate IsTarget(c: char)
  {
    c == RightQuote || c == EnDash || c == Ellipsis
  }

  /** `s` holds none of the rewritten code points. */
  predicate Clean(s: string)
  {
    forall k :: 0 <= k < |s| ==> !IsTarget(s[k])
  }

  /** `s.replace(target, repl)` for a one-character `target`. */
  function Replace(s: string, target: char, repl: string): (r: string)
    ensures target !in s ==> r == s
    ensures target !in repl ==> target !in r
    ensures |r| == |s| + Count(s, target) * (|repl| - 1)
  {
    if |s| == 0 then []
    else (if s[0] == target then repl else [s[0]]) + Replace(s[1..], target, repl)
  }

  lemma {:induction false} ReplaceConcat(a: string, b: string, target: char, repl: string)
    ensures Replace(a + b, target, repl) == Replace(a, target, repl) + Replace(b, target, repl)
  {
    if |a| == 0 {
      assert a + b == b;
    } else {
      assert (a + b)[1..] == a[1..] + b;
      ReplaceConcat(a[1..], b, target, repl);
    }
  }

  /** What one character becomes. */
  function Substitute(c: char): string
  {
    if c == RightQuote then "'"
    else if c == EnDash then "-"
    else if c == Ellipsis then "..."
    else [c]
  }

  /**
    Reference definition: sanitising is the per-character flat-map of
    `Substitute`. Its output is clean and two characters longer per ellipsis.
   */
  function SanitizeChars(s: string): (r: string)
    ensures Clean(r)
    ensures |r| == |s| + 2 * Count(s, Ellipsis)
  {
    if |s| == 0 then []
    else Substitute(s[0]) + SanitizeChars(s[1..])
  }

  /** The three sequential replacements, in the order the source applies them. */
  function ReplaceAll(s: string): string
  {
    Replace(Replace(Replace(s, RightQuote, "'"), EnDash, "-"), Ellipsis, "...")
  }

  /** The sequential replacements agree with the per-character flat-map. */
  lemma {:induction false} ReplaceAllIsCharMap(s: string)
    ensures ReplaceAll(s) == SanitizeChars(s)
  {
    if |s| > 0 {
      var head, tail := [s[0]], s[1..];
      assert s == head + tail;
      ReplaceConcat(head, tail, RightQuote, "'");
      var a1, a2 := Replace(head, RightQuote, "'"), Replace(tail, RightQuote, "'");
      ReplaceConcat(a1, a2, EnDash, "-");
      var b1, b2 := Replace(a1, EnDash, "-"), Replace(a2, EnDash, "-");
      ReplaceConcat(b1, b2, Ellipsis, "...");
      ReplaceAllIsCharMap(tail);
    }
  }

  /**
    `sanitize_text(text)`: equal to the per-character flat-map, free of the
    three code points, two characters longer per ellipsis, and the identity
    exactly on texts that contain none of them.
   */
  function SanitizeText(s: string): (r: string)
    ensures r == SanitizeChars(s)
    ensures Clean(r)
    ensures |r| == |s| + 2 * Count(s, Ellipsis)
    ensures r == s <==> Clean(s)
  {
    ReplaceAllIsCharMap(s);
    CleanIsFixedPoint(s);
    ReplaceAll(s)
  }

  lemma {:induction false} CleanIsFixedPoint(s: string)
    ensures SanitizeChars(s) == s <==> Clean(s)
  {
    if |s| > 0 {
      CleanIsFixedPoint(s[1..]);
      assert Clean(s) <==> !IsTarget(s[0]) && Clean(s[1..]);
      if IsTarget(s[0]) {
        assert SanitizeChars(s)[0] != s[0];
      } else {
        assert s == [s[0]] + s[1..];
      }
    }
  }

  /** Sanitising is idempotent. */
  lemma SanitizeIdempotent(s: string)
    ensures SanitizeText(SanitizeText(s)) == SanitizeText(s)
  {
  }

  /** Sanitising distributes over concatenation. */
  lemma {:induction false} SanitizeConcat(a: string, b: string)
    ensures SanitizeText(a + b) == SanitizeText(a) + SanitizeText(b)
  {
    if |a| == 0 {
      assert a + b == b;
    } else {
      assert (a + b)[1..] == a[1..] + b;
      SanitizeConcat(a[1..], b);
    }
  }

  /**
    Every character that is neither a target nor one of the replacement
    characters `'`, `-`, `.` occurs equally often before and after.
   */
  lemma {:induction false} SanitizeKeepsOthers(s: string, c: char)
    requires !IsTarget(c) && c != '\'' && c != '-' && c != '.'
    ensures Count(SanitizeText(s), c) == Count(s, c)
  {
    if |s| > 0 {
      SanitizeKeepsOthers(s[1..], c);
      CountConcat(Substitute(s[0]), SanitizeChars(s[1..]), c);
    }
  }

  /** `sanitize_text(f"{a}{sep}{b}")`, the shape of every two-field line the renderer draws. */
  function SanitizedPair(a: string, sep: string, b: string): string
  {
    SanitizeText(a + sep + b)
  }

  /** Sanitising `a + sep + b` for a clean separator sanitises the two sides. */
  lemma SanitizeJoined(a: string, sep: string, b: string)
    requires Clean(sep)
    ensures SanitizedPair(a, sep, b) == SanitizeText(a) + sep + SanitizeText(b)
  {
    SanitizeConcat(a + sep, b);
    SanitizeConcat(a, sep);
  }

  /** A clean prefix passes through unchanged; the next character is substituted. */
  lemma SanitizeAfterClean(a: string, c: char, b: string)
    requires Clean(a)
    ensures SanitizeText(a + ([c] + b)) == a + (Substitute(c) + SanitizeText(b))
  {
    SanitizeConcat(a, [c] + b);
    SanitizeConcat([c], b);
    assert SanitizeText(a) == a;
    assert SanitizeChars([c]) == Substitute(c);
  }

  /**
    A text of the shape `p1 ’ p2 – p3 …` with clean pieces comes out as
    `p1 ' p2 - p3 ...`.
   */
  lemma SanitizeQuoteDashEllipsis(p1: string, p2: string, p3: string)
    requires Clean(p1) && Clean(p2) && Clean(p3)
    ensures SanitizeText(p1 + ([RightQuote] + (p2 + ([EnDash] + (p3 + [Ellipsis])))))
         == p1 + ("'" + (p2 + ("-" + (p3 + "..."))))
  {
    var y3 := p3 + [Ellipsis];
    SanitizeAfterClean(p3, Ellipsis, []);
    assert y3 == p3 + ([Ellipsis] + []);
    assert SanitizeText(y3) == p3 + "...";
    var y2 := p2 + ([EnDash] + y3);
    SanitizeAfterClean(p2, EnDash, y3);
    assert SanitizeText(y2) == p2 + ("-" + (p3 + "..."));
    SanitizeAfterClean(p1, RightQuote, y2);
  }

  /**
    The unit-test sentence about a smart quote, a dash and an ellipsis; its
    pieces are held as parameters fixed by `requires`, which keeps the
    solver from unfolding the literals eagerly.
   */
  lemma SanitizeUnitTestVector(p1: string, p2: string, p3: string)
    requires p1 == "This has a smart quote " && p2 == " and a dash " && p3 == " and ellipsis "
    ensures SanitizeText(p1 + ([RightQuote] + (p2 + ([EnDash] + (p3 + [Ellipsis])))))
         == p1 + ("'" + (p2 + ("-" + (p3 + "..."))))
  {
    assert Clean(p1) && Clean(p2) && Clean(p3);
    SanitizeQuoteDashEllipsis(p1, p2, p3);
  }

  /**
    The example `"café ’s – done…"`, which becomes `"café 's - done..."`;
    its pieces are held as parameters fixed by `requires`, which keeps the
    solver from unfolding the literals eagerly.
   */
  lemma SanitizeCafeExample(p1: string, p2: string, p3: string)
    requires p1 == "caf\U{e9} " && p2 == "s " && p3 == " done"
    ensures SanitizeText(p1 + ([RightQuote] + (p2 + ([EnDash] + (p3 + [Ellipsis])))))
         == p1 + ("'" + (p2 + ("-" + (p3 + "..."))))
  {
    assert Clean(p1) && Clean(p2) && Clean(p3);
    SanitizeQuoteDashEllipsis(p1, p2, p3);
  }
}
