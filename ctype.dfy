/** The <ctype.h> classifications used by the reference-config code, in the
    C locale. A `char` stands for one byte (code 0 to 255) of a C string. */
module CType {
  /** `isspace`: blank, or one of tab, newline, vertical tab, form feed and
      carriage return (codes 9 to 13). PCRE's `\s` matches the same set. */
  predicate IsSpace(c: char) {
    c == ' ' || '\t' <= c <= '\r'
  }

  predicate IsUpper(c: char) {
    'A' <= c <= 'Z'
  }

  predicate IsAlpha(c: char) {
    'A' <= c <= 'Z' || 'a' <= c <= 'z'
  }

  predicate IsDigit(c: char) {
    '0' <= c <= '9'
  }

  /** `tolower` in the C locale: each of 'A' to 'Z' becomes the letter of
      the same rank in 'a' to 'z', and every other byte comes back unchanged. */
  function ToLower(c: char): (r: char)
    ensures !IsUpper(r)
    ensures IsAlpha(c) <==> IsAlpha(r)
    ensures !IsUpper(c) ==> r == c
    ensures IsUpper(c) ==> 'a' <= r <= 'z' && r as int - 'a' as int == c as int - 'A' as int
  {
    if IsUpper(c) then (c as int + 32) as char else c
  }

  lemma {:induction false} ToLowerIdempotent(c: char)
    ensures ToLower(ToLower(c)) == ToLower(c)
  {
  }
}
