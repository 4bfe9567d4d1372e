/** `returnText`: the trimmed text of an element, or "" when the element is
    missing or reading it fails. Trimming follows JavaScript's
    `String.prototype.trim`. */
module Text {

  /** The characters `trim` removes: WhiteSpace and LineTerminator of
      ECMAScript (section 12.2 and 12.3 of ECMA-262), that is tab, vertical
      tab, form feed, space, no-break space, the byte order mark, the other
      Unicode space separators, and the four line terminators. */
  predicate IsWhitespace(c: char) {
    c == '\t' || c == '\n' || c == '\U{B}' || c == '\U{C}' || c == '\r' || c == ' '
    || c == '\U{A0}' || c == '\U{1680}' || ('\U{2000}' <= c <= '\U{200A}')
    || c == '\U{2028}' || c == '\U{2029}' || c == '\U{202F}' || c == '\U{205F}'
    || c == '\U{3000}' || c == '\U{FEFF}'
  }

  /** The number of whitespace characters at the start of `s`. */
  function LeadingSpace(s: string): (n: nat)
    ensures n <= |s|
    ensures forall k :: 0 <= k < n ==> IsWhitespace(s[k])
    ensures n < |s| ==> !IsWhitespace(s[n])
  {
    if s == [] || !IsWhitespace(s[0]) then 0 else 1 + LeadingSpace(s[1..])
  }

  /** The number of whitespace characters at the end of `s`. */
  function TrailingSpace(s: string): (n: nat)
    ensures n <= |s|
    ensures forall k :: |s| - n <= k < |s| ==> IsWhitespace(s[k])
    ensures n < |s| ==> !IsWhitespace(s[|s| - 1 - n])
  {
    if s == [] || !IsWhitespace(s[|s| - 1]) then 0 else 1 + TrailingSpace(s[..|s| - 1])
  }

  predicate Untrimmable(r: string) {
    r == [] || (!IsWhitespace(r[0]) && !IsWhitespace(r[|r| - 1]))
  }

  /** `trim`: the result is a contiguous slice of `s` that starts and ends
      with a non-whitespace character, and everything cut away on either
      side is whitespace. */
  function Trim(s: string): (r: string)
    ensures Untrimmable(r)
    ensures LeadingSpace(s) + |r| <= |s|
    ensures r == s[LeadingSpace(s)..LeadingSpace(s) + |r|]
    ensures forall k :: 0 <= k < |s| && !(LeadingSpace(s) <= k < LeadingSpace(s) + |r|) ==> IsWhitespace(s[k])
  {
    var rest := s[LeadingSpace(s)..];
    rest[..|rest| - TrailingSpace(rest)]
  }

  /** Trimming twice is trimming once. */
  lemma TrimIdempotent(s: string)
    ensures Trim(Trim(s)) == Trim(s)
  {
    var r := Trim(s);
    assert LeadingSpace(r) == 0;
    var rest := r[LeadingSpace(r)..];
    assert rest == r;
    assert TrailingSpace(r) == 0;
  }

  /** A string of whitespace only trims to "", the same text a missing
      element yields. */
  lemma BlankTrimsToEmpty(s: string)
    requires forall k :: 0 <= k < |s| ==> IsWhitespace(s[k])
    ensures Trim(s) == ""
  {
  }

  /** What the page answers when `returnText` looks an element up:
      nothing found, an error while querying or evaluating, or the
      element's rendered text (`innerText`). */
  datatype Element = Missing | ReadFailed | Found(innerText: string)

  /** `returnText` never fails: it yields the trimmed text of a found
      element, and "" otherwise. */
  function ReturnText(e: Element): (r: string)
    ensures Untrimmable(r)
    ensures !e.Found? ==> r == ""
    ensures e.Found? ==> r == Trim(e.innerText)
  {
    match e
    case Found(t) => Trim(t)
    case Missing => ""
    case ReadFailed => ""
  }
}
