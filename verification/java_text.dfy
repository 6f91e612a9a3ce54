/** Java's notion of a blank string, which both `String.isBlank` and the
    framework's "has text" check rely on. */
module JavaText {

  /** `Character.isWhitespace`: the Unicode space, line and paragraph
      separators other than the three no-break spaces, plus the ASCII
      controls tab, line feed, vertical tab, form feed, carriage return and
      the four information separators. */
  predicate IsJavaWhitespace(c: char) {
    || c == ' ' || c == '\t' || c == '\n' || c == '\U{000B}' || c == '\U{000C}' || c == '\r'
    || c == '\U{001C}' || c == '\U{001D}' || c == '\U{001E}' || c == '\U{001F}'
    || c == '\U{1680}'
    || ('\U{2000}' <= c <= '\U{200A}' && c != '\U{2007}')
    || c == '\U{2028}' || c == '\U{2029}' || c == '\U{205F}' || c == '\U{3000}'
  }

  /** `String.isBlank`: empty or whitespace only. */
  predicate IsBlank(s: string) {
    forall i :: 0 <= i < |s| ==> IsJavaWhitespace(s[i])
  }

  /** The empty string and whitespace runs are blank; a no-break space is
      not whitespace to Java. */
  lemma BlankExamples()
    ensures IsBlank("")
    ensures IsBlank(" \t")
    ensures !IsBlank("ADMIN")
    ensures !IsBlank("\U{00A0}")
  {
    assert !IsJavaWhitespace("ADMIN"[0]);
    assert !IsJavaWhitespace("\U{00A0}"[0]);
  }
}
