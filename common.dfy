/** Vocabulary shared by the whole pipeline: an optional value, and the
    canonical arithmetic alphabet that every cleanup chain ends in. */
module Common {

  datatype Option<T> = None | Some(value: T)

  /** The range `0-9` of the filter's character class: ASCII digits only. */
  predicate IsDigit(c: char) {
    '0' <= c <= '9'
  }

  /** The characters kept by the final `re.sub` filter (ocr_processing.py:62, 85, 135):
      the digits and `. + - * / ( )`. */
  predicate Allowed(c: char) {
    IsDigit(c) || c == '.' || c == '+' || c == '-' || c == '*' || c == '/' || c == '(' || c == ')'
  }

  /** A canonical expression: every character is in the filter's alphabet. */
  predicate IsCanonical(s: string) {
    forall i :: 0 <= i < |s| ==> Allowed(s[i])
  }
}
