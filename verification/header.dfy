/**
  The layout-independent parts of `PDF.header`: splitting the person's name
  into the first name and the rest, and the horizontal offsets of the four
  contact items (phone, e-mail, LinkedIn, location).
 */
module Header {
  import opened Text

  /** The two halves of the name line, before upper-casing. */
  datatype NameParts = NameParts(first: string, last: string)

  /**
    `name.split(" ")`: the first piece, and the remaining pieces joined back
    with single spaces. The first name is the text before the first space;
    with a space present the two halves rebuild the name around it, and
    without one the whole name is the first name and the last name is empty.
   */
  function SplitName(name: string): (r: NameParts)
    ensures ' ' !in r.first
    ensures |r.first| <= |name| && r.first == name[..|r.first|]
    ensures ' ' in name ==> r.first + " " + r.last == name
    ensures ' ' !in name <==> r.first == name
    ensures ' ' !in name ==> r.last == ""
  {
    var parts := Split(name, ' ');
    assert |parts| > 1 ==> Join(parts, ' ') == parts[0] + [' '] + Join(parts[1..], ' ');
    NameParts(parts[0], if |parts| > 1 then Join(parts[1..], ' ') else "")
  }

  /**
    The name `"John Doe"` splits into `"John"` and `"Doe"`; the name is held
    as a parameter fixed by `requires`, which keeps the solver from unfolding
    the literals eagerly.
   */
  lemma SplitNameExample(name: string)
    requires name == "John Doe"
    ensures SplitName(name) == NameParts("John", "Doe")
  {
    var r := SplitName(name);
    assert ' ' in name && name[4] == ' ';
    assert |r.first| == 4;
  }

  const ContactItemWidth: int := 40
  const IconSize: int := 3
  const TextOffset: int := 1

  /** Width of the text cell that follows an icon. */
  const ContactTextWidth: int := ContactItemWidth - IconSize - TextOffset

  /** Number of contact items the header draws: phone, e-mail, LinkedIn, location. */
  const ContactCount: nat := 4

  /** `total_width` for a row of `n` contact items. */
  function ContactRowWidth(n: nat): int
  {
    n * ContactItemWidth + 10
  }

  /** How far `start_x` moves after item `i`: the first two advance 40, the rest 45. */
  function Advance(i: nat): int
  {
    if i < 2 then ContactItemWidth else ContactItemWidth + 5
  }

  /**
    The loop over the contact items: the offset of each icon from the
    row's starting `x`. Every text cell ends before the next icon begins,
    and the four-item row sits at 0, 40, 80 and 125 and ends inside
    `total_width`.
   */
  method ContactOffsets(n: nat) returns (xs: seq<int>)
    ensures |xs| == n
    ensures forall k :: 0 <= k < n ==> xs[k] == if k <= 2 then 40 * k else 80 + 45 * (k - 2)
    ensures forall k :: 0 <= k < n - 1 ==> xs[k] + IconSize + TextOffset + ContactTextWidth <= xs[k + 1]
    ensures n == ContactCount ==> xs == [0, 40, 80, 125]
    ensures n == ContactCount ==> xs[n - 1] + ContactItemWidth <= ContactRowWidth(n)
  {
    xs := [];
    var x := 0;
    for i := 0 to n
      invariant |xs| == i
      invariant forall k :: 0 <= k < i ==> xs[k] == if k <= 2 then 40 * k else 80 + 45 * (k - 2)
      invariant x == if i <= 2 then 40 * i else 80 + 45 * (i - 2)
    {
      xs := xs + [x];
      x := x + Advance(i);
    }
  }
}
