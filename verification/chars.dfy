/** Character classes of Python 3 `str` as the normalisers use them.
    Whitespace follows `str.isspace()` exactly (the same class is used by the
    regular expression `\s`, by `str.split()` and by `str.strip()`). Word
    characters (`\w`), `str.lower()` and `string.punctuation` are modelled on
    ASCII; a non-ASCII character is neither a word character, an upper-case
    letter nor punctuation here. */
module Chars {

  /** Python's `str.isspace()` / regex `\s` on one character. */
  predicate IsSpace(c: char) {
    var n := c as int;
    || 9 <= n <= 13                 // \t \n \v \f \r
    || 28 <= n <= 32                // file/group/record/unit separators and ' '
    || n == 0x85 || n == 0xA0 || n == 0x1680
    || 0x2000 <= n <= 0x200A
    || n == 0x2028 || n == 0x2029 || n == 0x202F || n == 0x205F || n == 0x3000
  }

  predicate NotSpace(c: char) {
    !IsSpace(c)
  }

  predicate IsUpper(c: char) {
    'A' <= c <= 'Z'
  }

  predicate IsLowerLetter(c: char) {
    'a' <= c <= 'z'
  }

  predicate IsDigit(c: char) {
    '0' <= c <= '9'
  }

  /** Regex `\w`: letters, digits and the underscore. */
  predicate IsWordChar(c: char) {
    IsUpper(c) || IsLowerLetter(c) || IsDigit(c) || c == '_'
  }

  /** What `re.sub(r'[^\w\s]', '', text)` keeps. */
  predicate IsWordOrSpace(c: char) {
    IsWordChar(c) || IsSpace(c)
  }

  /** Membership in `string.punctuation`, the 32 ASCII characters
      ``!"#$%&'()*+,-./:;<=>?@[\]^_`{|}~``. */
  predicate IsPunctuation(c: char) {
    || '!' <= c <= '/'
    || ':' <= c <= '@'
    || '[' <= c <= '`'
    || '{' <= c <= '~'
  }

  predicate NotPunctuation(c: char) {
    !IsPunctuation(c)
  }

  /** `str.lower()` on one character. */
  function ToLower(c: char): (d: char)
    ensures !IsUpper(d)
    ensures !IsUpper(c) ==> d == c
    ensures IsUpper(c) ==> IsLowerLetter(d) && d as int - 'a' as int == c as int - 'A' as int
    ensures IsWordChar(d) == IsWordChar(c)
    ensures IsSpace(d) == IsSpace(c)
    ensures IsPunctuation(d) == IsPunctuation(c)
  {
    if IsUpper(c) then (c as int + 32) as char else c
  }
}
