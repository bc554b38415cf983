/**
 * Character classes and case mapping, restricted to ASCII.
 *
 * The source relies on Python's `str.upper()` and on the regular-expression
 * classes `\w`, `\d` and `\s`.  This module gives their meaning on ASCII
 * characters; every other character is left unchanged by upper-casing and
 * belongs to none of the classes.  It also says where a literal occurs in a
 * text, which both the skill scan and the experience pattern need.
 */
module Chars {

  /** `\w`: letters, digits and the underscore. */
  predicate IsWordChar(c: char) {
    ('A' <= c <= 'Z') || ('a' <= c <= 'z') || ('0' <= c <= '9') || c == '_'
  }

  /** `\d`. */
  predicate IsDigit(c: char) {
    '0' <= c <= '9'
  }

  /** `\s`: tab, line feed, vertical tab, form feed, carriage return,
      the four information separators 0x1C-0x1F and the space. */
  predicate IsSpace(c: char) {
    (9 <= c as int <= 13) || (28 <= c as int <= 32)
  }

  /** `str.upper()` on one character. */
  function UpperChar(c: char): (u: char)
    ensures 'a' <= c <= 'z' ==> u as int == c as int - 32
    ensures !('a' <= c <= 'z') ==> u == c
    ensures !('a' <= u <= 'z')
  {
    if 'a' <= c <= 'z' then (c as int - 32) as char else c
  }

  /** `str.upper()` on a string: position by position. */
  function Upper(s: string): (r: string)
    ensures |r| == |s|
    ensures forall i :: 0 <= i < |s| ==> r[i] == UpperChar(s[i])
  {
    seq(|s|, i requires 0 <= i < |s| => UpperChar(s[i]))
  }

  /** Upper-casing leaves no ASCII lower-case letter, and at every position
      keeps the character classes: `\w`, `\d` and `\s` see the same text
      before and after it. */
  lemma UpperKeepsClasses(s: string)
    ensures forall i :: 0 <= i < |s| ==> !('a' <= Upper(s)[i] <= 'z')
    ensures forall i :: 0 <= i < |s| ==>
      && IsWordChar(Upper(s)[i]) == IsWordChar(s[i])
      && IsDigit(Upper(s)[i]) == IsDigit(s[i])
      && IsSpace(Upper(s)[i]) == IsSpace(s[i])
  {
  }

  /** Upper-casing an upper-cased text changes nothing. */
  lemma UpperIdempotent(s: string)
    ensures Upper(Upper(s)) == Upper(s)
  {
  }

  /** The literal `w` occurs in `t` starting at position `i`. */
  predicate HasAt(t: string, i: nat, w: string) {
    i + |w| <= |t| && t[i..i + |w|] == w
  }
}
