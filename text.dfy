/**
 * The string operations the store and the scripts rely on: lower-casing,
 * substring containment, prefix and suffix tests, blankness after trimming,
 * and the decimal rendering of a number.
 */
module Text {

  /** Lower-cases one character; only the ASCII letters `A`..`Z` change. */
  function LowerChar(c: char): char {
    if 'A' <= c <= 'Z' then (c as int + 32) as char else c
  }

  /** `toLowerCase()`, character by character. */
  function Lower(s: string): (r: string)
    ensures |r| == |s|
    ensures forall i :: 0 <= i < |s| ==> r[i] == LowerChar(s[i])
  {
    seq(|s|, i requires 0 <= i < |s| => LowerChar(s[i]))
  }

  lemma LowerConcat(a: string, b: string)
    ensures Lower(a + b) == Lower(a) + Lower(b)
  {
    var l, r := Lower(a + b), Lower(a) + Lower(b);
    forall i | 0 <= i < |l| ensures l[i] == r[i] {
      if i < |a| {
        assert (a + b)[i] == a[i];
      } else {
        assert (a + b)[i] == b[i - |a|];
      }
    }
  }

  /** Substring containment: `q` occurs in `t` at some position. */
  predicate IsSubstring(q: string, t: string) {
    exists i :: 0 <= i <= |t| && q <= t[i..]
  }

  /** A substring of `b` is a substring of any text that contains `b`. */
  lemma SubstringWithin(q: string, a: string, b: string, c: string)
    requires IsSubstring(q, b)
    ensures IsSubstring(q, a + b + c)
  {
    var i :| 0 <= i <= |b| && q <= b[i..];
    var t := a + b + c;
    var k := |a| + i;
    forall j | 0 <= j < |q| ensures t[k..][j] == q[j] {
      assert q[j] == b[i..][j] == b[i + j];
      assert t[k + j] == b[i + j];
    }
    assert q <= t[k..];
  }

  /** Whatever occurs in the lower-cased `a` occurs in the lower-cased `a + b`. */
  lemma SubstringOfLowerPrefix(q: string, a: string, b: string)
    requires IsSubstring(q, Lower(a))
    ensures IsSubstring(q, Lower(a + b))
  {
    LowerConcat(a, b);
    SubstringWithin(q, [], Lower(a), Lower(b));
    assert [] + Lower(a) + Lower(b) == Lower(a) + Lower(b);
  }

  /** Whatever occurs in the lower-cased `b` occurs in the lower-cased `a + b`. */
  lemma SubstringOfLowerSuffix(q: string, a: string, b: string)
    requires IsSubstring(q, Lower(b))
    ensures IsSubstring(q, Lower(a + b))
  {
    LowerConcat(a, b);
    SubstringWithin(q, Lower(a), Lower(b), []);
    assert Lower(a) + Lower(b) + [] == Lower(a) + Lower(b);
  }

  /**
   * The characters that JavaScript's string trimming removes: the white space
   * characters (tab, vertical tab, form feed, the byte-order mark and every
   * space separator) and the line terminators.
   */
  predicate IsWhitespace(c: char) {
    || c == '\t' || c == '\U{000B}' || c == '\U{000C}' || c == '\U{FEFF}'
    || c == ' ' || c == '\U{00A0}' || c == '\U{1680}' || '\U{2000}' <= c <= '\U{200A}'
    || c == '\U{202F}' || c == '\U{205F}' || c == '\U{3000}'
    || c == '\n' || c == '\r' || c == '\U{2028}' || c == '\U{2029}'
  }

  /** A blank text: trimming it leaves nothing, because it holds only whitespace. */
  predicate IsBlank(s: string) {
    forall i :: 0 <= i < |s| ==> IsWhitespace(s[i])
  }

  predicate StartsWith(s: string, prefix: string) {
    prefix <= s
  }

  predicate EndsWith(s: string, suffix: string) {
    |suffix| <= |s| && s[|s| - |suffix|..] == suffix
  }

  predicate IsDigit(c: char) {
    '0' <= c <= '9'
  }

  function DigitChar(d: nat): (c: char)
    requires d < 10
    ensures IsDigit(c)
  {
    ('0' as int + d) as char
  }

  /** The decimal text of a natural number, as `toString()` prints it. */
  function NatToDecimal(n: nat): (r: string)
    ensures |r| >= 1
    ensures forall i :: 0 <= i < |r| ==> IsDigit(r[i])
  {
    if n < 10 then [DigitChar(n)] else NatToDecimal(n / 10) + [DigitChar(n % 10)]
  }

  /** The decimal text of an integer, with a leading `-` when it is negative. */
  function IntToDecimal(n: int): (r: string)
    ensures |r| >= 1
  {
    if n < 0 then "-" + NatToDecimal(-n) else NatToDecimal(n)
  }

  /** Decimal digits are unchanged by lower-casing. */
  lemma LowerKeepsDigits(s: string)
    requires forall i :: 0 <= i < |s| ==> IsDigit(s[i])
    ensures Lower(s) == s
  {
  }
}
