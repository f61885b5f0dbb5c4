/**
 * Bytes and the ASCII case folding the matcher compares with.
 * Strings are searched as the bytes of their UTF-8 encoding.
 */
module Ascii {

  /** One byte of a string's UTF-8 encoding (`u8`). */
  type byte = b: int | 0 <= b < 256

  /** The byte `b'\n'` that ends a line. */
  const NEWLINE: byte := 10

  /** 'A' ..= 'Z' */
  predicate IsUpper(b: byte) {
    65 <= b <= 90
  }

  /** 'a' ..= 'z' */
  predicate IsLower(b: byte) {
    97 <= b <= 122
  }

  /** `u8::to_ascii_lowercase`: upper-case ASCII letters map to lower case, every other byte to itself. */
  function ToLower(b: byte): (r: byte)
    ensures !IsUpper(r)
    ensures IsLower(r) <==> IsUpper(b) || IsLower(b)
    ensures r != b <==> IsUpper(b)
  {
    if IsUpper(b) then b + 32 else b
  }

  /**
   * `u8::eq_ignore_ascii_case`: two bytes are equal up to ASCII case exactly when they are
   * equal or are the upper- and lower-case forms of one letter.
   */
  function EqIgnoreCase(a: byte, b: byte): (r: bool)
    ensures r <==>
              || a == b
              || (IsUpper(a) && b == a + 32)
              || (IsLower(a) && b == a - 32)
  {
    ToLower(a) == ToLower(b)
  }

  /**
   * The comparison `search` selects once from its case flag: every byte matches itself,
   * with the flag exactly the bytes that agree after folding match, and without it only
   * equal bytes match.
   */
  function Compare(a: byte, b: byte, caseInsensitive: bool): (r: bool)
    ensures a == b ==> r
    ensures r ==> ToLower(a) == ToLower(b)
    ensures caseInsensitive ==> (r <==> ToLower(a) == ToLower(b))
    ensures r && !caseInsensitive ==> a == b
  {
    if caseInsensitive then EqIgnoreCase(a, b) else a == b
  }

  /** Bytes that are not ASCII letters are compared exactly in either mode. */
  lemma NonLettersCompareExactly(a: byte, b: byte, caseInsensitive: bool)
    requires !IsUpper(a) && !IsLower(a)
    ensures Compare(a, b, caseInsensitive) <==> a == b
  {
  }
}
