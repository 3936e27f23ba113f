/** Bytes and the C-locale character classes the search relies on. */
module Ascii {

  /** One byte of the input buffer or of the keyword. */
  type byte = x: int | 0 <= x < 256

  const NL: byte := 10
  const Colon: byte := 58
  const Space: byte := 32

  /** `tolower` in the C locale: only 'A'..'Z' change. */
  function ToLower(c: byte): (r: byte)
    ensures r == c || r == c + 32
    ensures !('A' as int <= r <= 'Z' as int)
    ensures r != c <==> 'A' as int <= c <= 'Z' as int
  {
    if 65 <= c <= 90 then c + 32 else c
  }

  /** The byte a comparison sees: folded when the search ignores case. */
  function Fold(c: byte, ignoreCase: bool): byte
  {
    if ignoreCase then ToLower(c) else c
  }

  /** `isalnum` in the C locale, or the underscore. */
  predicate IsWordChar(c: byte)
    ensures IsWordChar(c) ==> c < 128 && c != NL
  {
    ('0' as int <= c <= '9' as int) || ('A' as int <= c <= 'Z' as int)
    || ('a' as int <= c <= 'z' as int) || c == '_' as int
  }

  /** Folding case keeps a byte a word character or not, so `-i` does not move word edges. */
  lemma WordCharFolds(c: byte)
    ensures IsWordChar(c) == IsWordChar(ToLower(c))
  {
  }
}
