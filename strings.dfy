/**
 * JavaScript's `String.prototype.trim` over strings of Unicode characters.
 * `trim` removes the ECMAScript WhiteSpace and LineTerminator characters from
 * both ends of a string; the forms in the core test a title or name for
 * blankness with `!s.trim()`, which is true exactly when the trimmed string is empty.
 */
module Strings {

  /** The ECMAScript WhiteSpace and LineTerminator code points. */
  predicate IsWhitespace(c: char) {
    var n := c as int;
    || n == 0x09 || n == 0x0A || n == 0x0B || n == 0x0C || n == 0x0D || n == 0x20
    || n == 0xA0 || n == 0x1680 || (0x2000 <= n <= 0x200A)
    || n == 0x2028 || n == 0x2029 || n == 0x202F || n == 0x205F || n == 0x3000 || n == 0xFEFF
  }

  predicate AllWhitespace(s: string) {
    forall i :: 0 <= i < |s| ==> IsWhitespace(s[i])
  }

  /** The index of the first non-whitespace character of `s`, or `|s|` when there is none. */
  function FirstNonBlank(s: string): (n: nat)
    ensures n <= |s|
    ensures forall i :: 0 <= i < n ==> IsWhitespace(s[i])
    ensures n < |s| ==> !IsWhitespace(s[n])
  {
    if s == [] || !IsWhitespace(s[0]) then 0 else 1 + FirstNonBlank(s[1..])
  }

  /** The index just past the last non-whitespace character of `s`, or 0 when there is none. */
  function EndOfNonBlank(s: string): (n: nat)
    ensures n <= |s|
    ensures forall i :: n <= i < |s| ==> IsWhitespace(s[i])
    ensures n > 0 ==> !IsWhitespace(s[n - 1])
  {
    if s == [] || !IsWhitespace(s[|s| - 1]) then |s| else EndOfNonBlank(s[..|s| - 1])
  }

  /**
   * `s.trim()`: the slice of `s` left after removing whitespace from both ends.
   * It is empty exactly when `s` is all whitespace, and otherwise neither starts
   * nor ends with whitespace.
   */
  function Trim(s: string): (r: string)
    ensures |r| <= |s|
    ensures exists i :: 0 <= i <= |s| - |r| && r == s[i..i + |r|]
                        && AllWhitespace(s[..i]) && AllWhitespace(s[i + |r|..])
    ensures r == [] <==> AllWhitespace(s)
    ensures r != [] ==> !IsWhitespace(r[0]) && !IsWhitespace(r[|r| - 1])
  {
    var a := FirstNonBlank(s);
    var b := EndOfNonBlank(s);
    if a < b then
      assert AllWhitespace(s[..a]) && AllWhitespace(s[b..]);
      s[a..b]
    else
      assert AllWhitespace(s) by {
        forall i | 0 <= i < |s| ensures IsWhitespace(s[i]) {
          assert i < a || b <= i;
        }
      }
      assert AllWhitespace(s[..0]) && AllWhitespace(s[0..]);
      []
  }

  /** JavaScript's `!s.trim()`: the string is empty or whitespace only. */
  predicate IsBlank(s: string) {
    Trim(s) == []
  }

  /** Trimming is idempotent: a trimmed string has nothing left to trim. */
  lemma {:induction false} TrimIdempotent(s: string)
    ensures Trim(Trim(s)) == Trim(s)
  {
    var r := Trim(s);
    if r != [] {
      assert FirstNonBlank(r) == 0;
      assert EndOfNonBlank(r) == |r|;
      assert r[0..|r|] == r;
    }
  }

  /** A blank string is one made of whitespace only, and the two phrasings agree. */
  lemma BlankIffAllWhitespace(s: string)
    ensures IsBlank(s) <==> AllWhitespace(s)
  {
  }
}
