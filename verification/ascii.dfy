/** Character classes used by the key conversion, restricted to ASCII.
    An upper-case letter is one of 'A'..'Z'; its lower-case form is the
    letter 32 code points further on. */
module Ascii {

  predicate IsUpper(c: char) {
    'A' <= c <= 'Z'
  }

  predicate IsLower(c: char) {
    'a' <= c <= 'z'
  }

  /** The lower-case form of an upper-case letter (Swift's `lowercased()`
      on an ASCII capital). */
  function ToLower(c: char): (l: char)
    requires IsUpper(c)
    ensures IsLower(l) && !IsUpper(l)
    ensures l as int - c as int == 'a' as int - 'A' as int
  {
    (c as int + ('a' as int - 'A' as int)) as char
  }

  /** The upper-case form of a lower-case letter; any other character is
      returned as it is. */
  function ToUpper(c: char): (u: char)
    ensures IsLower(c) ==> IsUpper(u) && c as int - u as int == 'a' as int - 'A' as int
    ensures !IsLower(c) ==> u == c
  {
    if IsLower(c) then (c as int - ('a' as int - 'A' as int)) as char else c
  }

  /** Lowering a capital and raising it again gives the capital back. */
  lemma ToUpperToLower(c: char)
    requires IsUpper(c)
    ensures ToUpper(ToLower(c)) == c
  {
  }
}
