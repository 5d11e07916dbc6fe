/** When a string counts as text for the records that demand some. */
module PlainText {

  /** The characters `str.strip` removes. */
  predicate IsBlankChar(c: char) {
    || '\t' <= c <= '\r' || '\U{1C}' <= c <= ' ' || c == '\U{85}' || c == '\U{A0}' || c == '\U{1680}'
    || '\U{2000}' <= c <= '\U{200A}' || c in {'\U{2028}', '\U{2029}', '\U{202F}', '\U{205F}', '\U{3000}'}
  }

  /** Text that is not only white space. */
  predicate IsText(s: string) {
    exists i :: 0 <= i < |s| && !IsBlankChar(s[i])
  }
}
