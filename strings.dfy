/** Text helpers shared by the server-side guards. */
module Strings {
  import opened Wrappers

  /** The characters .NET's `Char.IsWhiteSpace` accepts (the Unicode White_Space property). */
  predicate IsWhiteSpace(c: char) {
    || ('\U{0009}' <= c <= '\U{000D}')
    || c == ' ' || c == '\U{0085}' || c == '\U{00A0}' || c == '\U{1680}'
    || ('\U{2000}' <= c <= '\U{200A}')
    || c == '\U{2028}' || c == '\U{2029}' || c == '\U{202F}' || c == '\U{205F}' || c == '\U{3000}'
  }

  /** `string.IsNullOrWhiteSpace`: a missing string, or one made only of white space. */
  predicate IsNullOrWhiteSpace(s: Option<string>) {
    match s
    case None => true
    case Some(t) => forall i | 0 <= i < |t| :: IsWhiteSpace(t[i])
  }
}
