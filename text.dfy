/**
 * ASCII character classes and case mappings, and Python's ordering and joining of
 * strings. Strings are sequences of characters; only ASCII letters are cased.
 */
module Text {

  predicate IsUpper(c: char) { 'A' <= c <= 'Z' }
  predicate IsLower(c: char) { 'a' <= c <= 'z' }

  /** `str.isalpha` on one character, restricted to ASCII. */
  predicate IsAlpha(c: char) { IsUpper(c) || IsLower(c) }

  predicate IsDigit(c: char) { '0' <= c <= '9' }

  /** `str.upper` on one character. */
  function ToUpper(c: char): (r: char)
    ensures IsAlpha(r) <==> IsAlpha(c)
    ensures IsAlpha(c) ==> IsUpper(r)
    ensures IsUpper(c) || !IsAlpha(c) ==> r == c
    ensures IsLower(c) ==> r as int == c as int - 32
  {
    if IsLower(c) then (c as int - 32) as char else c
  }

  /** `str.lower` on one character. */
  function ToLower(c: char): (r: char)
    ensures IsAlpha(r) <==> IsAlpha(c)
    ensures IsAlpha(c) ==> IsLower(r)
    ensures IsLower(c) || !IsAlpha(c) ==> r == c
    ensures IsUpper(c) ==> r as int == c as int + 32
  {
    if IsUpper(c) then (c as int + 32) as char else c
  }

  function DigitChar(n: int): (c: char)
    requires 0 <= n < 10
    ensures IsDigit(c) && c as int - '0' as int == n
  {
    ('0' as int + n) as char
  }

  function DigitValue(c: char): (n: int)
    requires IsDigit(c)
    ensures 0 <= n < 10
  {
    c as int - '0' as int
  }

  /**
   * Python's `<` on strings: code points compared left to right, and a proper
   * prefix is smaller than the longer string.
   */
  predicate Less(a: string, b: string)
    decreases |a|
  {
    if |a| == 0 then |b| > 0
    else if |b| == 0 then false
    else if a[0] != b[0] then a[0] < b[0]
    else Less(a[1..], b[1..])
  }

  lemma {:induction false} LessIrreflexive(a: string)
    ensures !Less(a, a)
    decreases |a|
  {
    if |a| > 0 {
      LessIrreflexive(a[1..]);
    }
  }

  lemma {:induction false} LessTransitive(a: string, b: string, c: string)
    requires Less(a, b) && Less(b, c)
    ensures Less(a, c)
    decreases |a|
  {
    if |a| > 0 && |b| > 0 && |c| > 0 && a[0] == b[0] == c[0] {
      LessTransitive(a[1..], b[1..], c[1..]);
    }
  }

  lemma {:induction false} LessTotal(a: string, b: string)
    requires a != b
    ensures Less(a, b) || Less(b, a)
    decreases |a|
  {
    if |a| > 0 && |b| > 0 && a[0] == b[0] {
      assert a == [a[0]] + a[1..] && b == [b[0]] + b[1..];
      LessTotal(a[1..], b[1..]);
    }
  }

  /** Comparing two strings that start with prefixes of equal length. */
  lemma {:induction false} LessConcat(a1: string, a2: string, b1: string, b2: string)
    requires |a1| == |b1|
    ensures Less(a1 + a2, b1 + b2) <==> Less(a1, b1) || (a1 == b1 && Less(a2, b2))
    decreases |a1|
  {
    if |a1| > 0 {
      assert (a1 + a2)[1..] == a1[1..] + a2;
      assert (b1 + b2)[1..] == b1[1..] + b2;
      LessConcat(a1[1..], a2, b1[1..], b2);
      if a1[0] == b1[0] && a1[1..] == b1[1..] {
        assert a1 == [a1[0]] + a1[1..] && b1 == [b1[0]] + b1[1..];
      }
    } else {
      assert a1 + a2 == a2 && b1 + b2 == b2;
    }
  }

  /** `' '.join(words)`. */
  function Join(words: seq<string>): string
  {
    if |words| == 0 then ""
    else if |words| == 1 then words[0]
    else words[0] + " " + Join(words[1..])
  }

  /** The concatenation of the words, with no separator. */
  function Concat(words: seq<string>): string
  {
    if |words| == 0 then "" else words[0] + Concat(words[1..])
  }
}
