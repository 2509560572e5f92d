/**
 * The string operations the scripts rely on: ASCII lower-casing (`str.lower`),
 * substring containment (`needle in haystack`), the part of a string before
 * its first separator (`s.split(sep)[0]`), and the numeric conversions
 * `int(s)` and `float(s)` restricted to plain decimal literals.
 */
module Text {
  import opened Wrappers

  function LowerChar(c: char): char {
    if 'A' <= c <= 'Z' then (c as int + 32) as char else c
  }

  /** `s.lower()` on ASCII letters; every other character is kept. */
  function Lower(s: string): (r: string)
    ensures |r| == |s|
    ensures forall i :: 0 <= i < |s| ==> !('A' <= r[i] <= 'Z')
    ensures forall i :: 0 <= i < |s| && !('A' <= s[i] <= 'Z') ==> r[i] == s[i]
  {
    seq(|s|, i requires 0 <= i < |s| => LowerChar(s[i]))
  }

  /** `needle` occurs in `hay` starting at index `i`. */
  predicate OccursAt(hay: string, needle: string, i: int) {
    0 <= i <= |hay| - |needle| && hay[i..i + |needle|] == needle
  }

  /** Python's `needle in hay`: some window of `hay` equals `needle`. */
  function Contains(hay: string, needle: string): (r: bool)
    ensures r <==> exists i :: OccursAt(hay, needle, i)
    decreases |hay|
  {
    if |needle| > |hay| then false
    else if hay[..|needle|] == needle then
      assert OccursAt(hay, needle, 0);
      true
    else
      var tail := hay[1..];
      var rest := Contains(tail, needle);
      assert rest ==> exists i :: OccursAt(hay, needle, i) by {
        if rest {
          var j :| OccursAt(tail, needle, j);
          assert hay[j + 1..j + 1 + |needle|] == tail[j..j + |needle|];
          assert OccursAt(hay, needle, j + 1);
        }
      }
      assert (exists i :: OccursAt(hay, needle, i)) ==> rest by {
        if exists i :: OccursAt(hay, needle, i) {
          var i :| OccursAt(hay, needle, i);
          assert i != 0;
          assert tail[i - 1..i - 1 + |needle|] == hay[i..i + |needle|];
          assert OccursAt(tail, needle, i - 1);
        }
      }
      rest
  }

  /** `s.split(sep)[0]`: the longest prefix of `s` free of `sep`. */
  function Before(s: string, sep: char): (r: string)
    ensures |r| <= |s| && r == s[..|r|]
    ensures sep !in r
    ensures |r| < |s| ==> s[|r|] == sep
  {
    if s == [] || s[0] == sep then [] else [s[0]] + Before(s[1..], sep)
  }

  predicate IsDigit(c: char) {
    '0' <= c <= '9'
  }

  predicate AllDigits(s: string) {
    forall i :: 0 <= i < |s| ==> IsDigit(s[i])
  }

  function DigitChar(d: nat): char
    requires d < 10
  {
    ('0' as int + d) as char
  }

  /** The number a run of decimal digits denotes, most significant first. */
  function DigitsValue(s: string): nat
    requires AllDigits(s)
  {
    if s == [] then 0
    else DigitsValue(s[..|s| - 1]) * 10 + (s[|s| - 1] as int - '0' as int)
  }

  /** Decimal text of a natural number, as Python's `str` writes an `int`. */
  function NatText(n: nat): (r: string)
    ensures |r| > 0
  {
    if n < 10 then [DigitChar(n)] else NatText(n / 10) + [DigitChar(n % 10)]
  }

  /** Decimal text of an integer, with a leading '-' when negative. */
  function IntText(n: int): string {
    if n < 0 then "-" + NatText(-n) else NatText(n)
  }

  /** `int(s)` for a literal made of an optional sign and one or more digits. */
  function ParseInt(s: string): (r: Option<int>)
    ensures r.Some? ==> |s| > 0
    ensures |s| > 0 && AllDigits(s) ==> r == Some(DigitsValue(s))
  {
    if s == [] then None
    else if s[0] == '+' || s[0] == '-' then
      var body := s[1..];
      if body != [] && AllDigits(body) then
        var magnitude: int := DigitsValue(body);
        Some(if s[0] == '-' then -magnitude else magnitude)
      else None
    else if AllDigits(s) then Some(DigitsValue(s))
    else None
  }

  function Pow10(k: nat): (r: nat)
    ensures r > 0
  {
    if k == 0 then 1 else 10 * Pow10(k - 1)
  }

  /** `float(s)` for a decimal literal: optional sign, digits, optional
      '.' and fraction digits, with at least one digit overall. */
  function ParseReal(s: string): (r: Option<real>)
    ensures r.Some? ==> |s| > 0
  {
    if s == [] then None
    else if s[0] == '+' || s[0] == '-' then
      match ParseUnsignedReal(s[1..])
      case None => None
      case Some(x) => Some(if s[0] == '-' then -x else x)
    else ParseUnsignedReal(s)
  }

  function ParseUnsignedReal(s: string): Option<real> {
    var whole := Before(s, '.');
    var frac := if |whole| < |s| then s[|whole| + 1..] else [];
    if (whole == [] && frac == []) || !AllDigits(whole) || !AllDigits(frac) then None
    else Some(DigitsValue(whole) as real + FractionValue(frac))
  }

  /** The value of the digits after a decimal point. */
  function FractionValue(frac: string): real
    requires AllDigits(frac)
  {
    if frac == [] then 0.0 else DigitsValue(frac) as real / Pow10(|frac|) as real
  }

  /** Reading back the text of a natural number gives the number. */
  lemma {:induction false} NatTextRoundTrip(n: nat)
    ensures AllDigits(NatText(n)) && DigitsValue(NatText(n)) == n
  {
    if n >= 10 {
      NatTextRoundTrip(n / 10);
      var t := NatText(n);
      assert t[..|t| - 1] == NatText(n / 10);
    }
  }

  /** A needle with a character that never occurs in the text is not in it. */
  lemma AbsentChar(hay: string, needle: string, k: int)
    requires 0 <= k < |needle|
    requires forall i :: 0 <= i < |hay| ==> hay[i] != needle[k]
    ensures !Contains(hay, needle)
  {
  }

  /** `split(sep)[0]` of a text made of a separator-free head, the
      separator and anything after it is the head. */
  lemma {:induction false} BeforeSeparator(head: string, sep: char, rest: string)
    requires sep !in head
    ensures Before(head + [sep] + rest, sep) == head
    ensures Before(head, sep) == head
  {
    if head != [] {
      BeforeSeparator(head[1..], sep, rest);
      assert (head + [sep] + rest)[1..] == head[1..] + [sep] + rest;
      assert [head[0]] + head[1..] == head;
    }
  }

}
