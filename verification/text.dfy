/**
  The Python `str` operations the bot relies on, over strings of Unicode
  scalar values: substring membership (`needle in hay`), `str.replace`,
  decimal digits (`str(n)` and the digit part of `int(s)`).
  Character classes are ASCII only.
 */
module Text {

  /** Python `needle in hay`: `needle` occurs as a contiguous part of `hay`. */
  predicate Contains(hay: string, needle: string)
    decreases |hay|
  {
    if |needle| > |hay| then false
    else if hay[..|needle|] == needle then true
    else |hay| > 0 && Contains(hay[1..], needle)
  }

  /** For a one-character needle, substring membership is character membership. */
  lemma {:induction false} ContainsOneChar(hay: string, needle: string)
    requires |needle| == 1
    ensures Contains(hay, needle) <==> needle[0] in hay
  {
    if |hay| > 0 {
      ContainsOneChar(hay[1..], needle);
      assert hay == [hay[0]] + hay[1..];
    }
  }

  /** Every character of an occurring needle occurs in the haystack. */
  lemma {:induction false} ContainsCharsOf(hay: string, needle: string, c: char)
    requires Contains(hay, needle) && c in needle
    ensures c in hay
  {
    if hay[..|needle|] != needle {
      ContainsCharsOf(hay[1..], needle, c);
    } else {
      assert c in hay[..|needle|];
    }
  }

  /**
    Python `s.replace(pattern, replacement)` for a non-empty pattern: occurrences
    are found from left to right and do not overlap.
   */
  function Replace(s: string, pattern: string, replacement: string): string
    requires |pattern| > 0
    decreases |s|
  {
    if |s| == 0 then []
    else if |pattern| <= |s| && s[..|pattern|] == pattern then
      replacement + Replace(s[|pattern|..], pattern, replacement)
    else [s[0]] + Replace(s[1..], pattern, replacement)
  }

  /** When the pattern does not occur, `replace` returns its input. */
  lemma {:induction false} ReplaceWithoutOccurrence(s: string, pattern: string, replacement: string)
    requires |pattern| > 0 && !Contains(s, pattern)
    ensures Replace(s, pattern, replacement) == s
  {
    if |s| > 0 {
      ReplaceWithoutOccurrence(s[1..], pattern, replacement);
      assert s == [s[0]] + s[1..];
    }
  }

  /**
    Which characters survive or appear after `replace`: a character outside the
    replacement can only come from the input; a character outside the pattern is
    in the output iff it was in the input or the replacement was inserted; a
    character in both pattern and replacement is kept exactly when it was there.
   */
  lemma {:induction false} ReplaceCharMembership(s: string, pattern: string, replacement: string, c: char)
    requires |pattern| > 0
    ensures c !in replacement && c in Replace(s, pattern, replacement) ==> c in s
    ensures c !in pattern ==>
      (c in Replace(s, pattern, replacement) <==> c in s || (c in replacement && Contains(s, pattern)))
    ensures c in pattern && c in replacement ==> (c in Replace(s, pattern, replacement) <==> c in s)
    decreases |s|
  {
    if |s| > 0 {
      if |pattern| <= |s| && s[..|pattern|] == pattern {
        var rest := s[|pattern|..];
        ReplaceCharMembership(rest, pattern, replacement, c);
        assert s == pattern + rest;
      } else {
        ReplaceCharMembership(s[1..], pattern, replacement, c);
        assert s == [s[0]] + s[1..];
      }
    }
  }

  predicate IsDigit(c: char) {
    '0' <= c <= '9'
  }

  predicate AllDigits(ds: string) {
    forall i | 0 <= i < |ds| :: IsDigit(ds[i])
  }

  function DigitValue(c: char): (d: nat)
    requires IsDigit(c)
    ensures d < 10
  {
    (c as int) - ('0' as int)
  }

  function DigitChar(d: nat): (c: char)
    requires d < 10
    ensures IsDigit(c) && DigitValue(c) == d
  {
    ('0' as int + d) as char
  }

  /** The value of a run of decimal digits, most significant first (leading zeros allowed). */
  function DecimalValue(ds: string): nat
    requires AllDigits(ds)
    decreases |ds|
  {
    if ds == [] then 0 else DecimalValue(ds[..|ds| - 1]) * 10 + DigitValue(ds[|ds| - 1])
  }

  /** Python `str(n)` for a natural number: digits only, no leading zero except for 0 itself. */
  function DecimalString(n: nat): (ds: string)
    ensures |ds| > 0 && AllDigits(ds)
    ensures ds[0] == '0' <==> n == 0
    decreases n
  {
    if n < 10 then [DigitChar(n)] else DecimalString(n / 10) + [DigitChar(n % 10)]
  }

  function Pow10(k: nat): (p: nat)
    ensures p >= 1
  {
    if k == 0 then 1 else 10 * Pow10(k - 1)
  }

  /** Reading back the decimal string of `n` gives `n`. */
  lemma {:induction false} DecimalRoundTrip(n: nat)
    ensures DecimalValue(DecimalString(n)) == n
    decreases n
  {
    if n >= 10 {
      DecimalRoundTrip(n / 10);
      var ds := DecimalString(n);
      assert ds[..|ds| - 1] == DecimalString(n / 10);
    }
  }

  /** A positive number has more than `k` decimal digits exactly when it is at least 10^k. */
  lemma {:induction false} DecimalLength(n: nat, k: nat)
    requires n > 0
    ensures |DecimalString(n)| > k <==> n >= Pow10(k)
    decreases n
  {
    if n < 10 {
      if k > 0 {
        assert Pow10(k) == 10 * Pow10(k - 1);
      }
    } else if k > 0 {
      DecimalLength(n / 10, k - 1);
      assert n / 10 >= Pow10(k - 1) <==> n >= 10 * Pow10(k - 1);
    }
  }
}
