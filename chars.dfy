/** Character classes used by the regular expressions of the system.

    `IsSpace` is exactly the JavaScript `\s` class (WhiteSpace plus
    LineTerminator), which is also the set that `String.prototype.trim` and
    `Number.parseInt` skip. `IsLetter` and `IsNumber` stand for the Unicode
    properties `\p{L}` and `\p{N}`: they agree with Unicode for every code
    point below U+0250 and treat everything above as neither. `ToLower` is
    `toLowerCase` applied one character at a time, for ASCII and Latin-1. */
module Chars {

  predicate IsSpace(c: char)
  {
    c == '\t' || c == '\n' || c == '\U{000B}' || c == '\U{000C}' || c == '\r' || c == ' '
    || c == '\U{00A0}' || c == '\U{1680}' || ('\U{2000}' <= c <= '\U{200A}')
    || c == '\U{2028}' || c == '\U{2029}' || c == '\U{202F}' || c == '\U{205F}'
    || c == '\U{3000}' || c == '\U{FEFF}'
  }

  predicate IsLetter(c: char)
  {
    ('A' <= c <= 'Z') || ('a' <= c <= 'z')
    || c == '\U{00AA}' || c == '\U{00B5}' || c == '\U{00BA}'
    || ('\U{00C0}' <= c <= '\U{00D6}') || ('\U{00D8}' <= c <= '\U{00F6}')
    || ('\U{00F8}' <= c <= '\U{024F}')
  }

  predicate IsNumber(c: char)
  {
    ('0' <= c <= '9') || c == '\U{00B2}' || c == '\U{00B3}' || c == '\U{00B9}'
    || ('\U{00BC}' <= c <= '\U{00BE}')
  }

  predicate IsDigit(c: char)
  {
    '0' <= c <= '9'
  }

  /** The ASCII-only `\w` class of a regular expression without the `u` flag. */
  predicate IsAsciiWord(c: char)
  {
    ('A' <= c <= 'Z') || ('a' <= c <= 'z') || ('0' <= c <= '9') || c == '_'
  }

  predicate IsUpper(c: char)
  {
    ('A' <= c <= 'Z') || ('\U{00C0}' <= c <= '\U{00DE}' && c != '\U{00D7}')
  }

  function ToLower(c: char): (r: char)
    ensures IsUpper(c) ==> r as int == c as int + 32
    ensures !IsUpper(c) ==> r == c
  {
    if IsUpper(c) then (c as int + 32) as char else c
  }

  /** Lower-casing never moves a character between the classes above, and a
      lower-cased character is left alone by a second lower-casing. */
  lemma ToLowerKeepsClasses(c: char)
    ensures IsLetter(ToLower(c)) == IsLetter(c)
    ensures IsNumber(ToLower(c)) == IsNumber(c)
    ensures IsSpace(ToLower(c)) == IsSpace(c)
    ensures IsAsciiWord(ToLower(c)) == IsAsciiWord(c)
    ensures ToLower(ToLower(c)) == ToLower(c)
  {
  }
}
