/** Character classes and case mapping restricted to ASCII, which is the part of
    `String.prototype.toLowerCase` the application relies on. */
module Ascii {

  predicate IsUpper(c: char) {
    'A' <= c <= 'Z'
  }

  predicate IsLowerLetter(c: char) {
    'a' <= c <= 'z'
  }

  predicate IsDigit(c: char) {
    '0' <= c <= '9'
  }

  /** The class `[a-z0-9]` of the slug regular expression. */
  predicate IsLowerAlnum(c: char) {
    IsLowerLetter(c) || IsDigit(c)
  }

  /** An ASCII letter of either case, or a digit. */
  predicate IsAlnum(c: char) {
    IsUpper(c) || IsLowerAlnum(c)
  }

  function ToLower(c: char): (r: char)
    ensures IsUpper(c) ==> IsLowerLetter(r) && r as int == c as int + 32
    ensures !IsUpper(c) ==> r == c
    ensures IsLowerAlnum(r) <==> IsAlnum(c)
  {
    if IsUpper(c) then (c as int + 32) as char else c
  }

  /** `s.toLowerCase()` on ASCII: the same length, each character lowered. */
  function Lower(s: string): (r: string)
    ensures |r| == |s|
    ensures forall i :: 0 <= i < |s| ==> r[i] == ToLower(s[i])
  {
    seq(|s|, i requires 0 <= i < |s| => ToLower(s[i]))
  }

  /** Lowering twice is lowering once. */
  lemma LowerIdempotent(s: string)
    ensures Lower(Lower(s)) == Lower(s)
  {
  }

  /** A string without upper-case letters is its own lower-case form. */
  lemma LowerFixesLowerCase(s: string)
    requires forall i :: 0 <= i < |s| ==> !IsUpper(s[i])
    ensures Lower(s) == s
  {
  }

  /** `s.startsWith(prefix)`. */
  predicate StartsWith(s: string, prefix: string) {
    |prefix| <= |s| && s[..|prefix|] == prefix
  }
}
