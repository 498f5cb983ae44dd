/**
 * `normalize_digits` (services/checks.py): every character of Unicode
 * category Nd becomes the ASCII digit of the same value; every other
 * character is kept.
 */
module Digits {
  import opened Text

  function AsciiDigit(d: Digit): (c: char)
    ensures IsAsciiDigit(c) && c as int - '0' as int == d
  {
    ('0' as int + d) as char
  }

  /** What one character becomes. */
  function DigitChar(u: CharTable, c: char): char {
    if c in u.digit then AsciiDigit(u.digit[c]) else c
  }

  /** The text `normalize_digits` returns, character by character. */
  function DigitsNormalized(u: CharTable, text: string): (r: string) {
    seq(|text|, i requires 0 <= i < |text| => DigitChar(u, text[i]))
  }

  /** The loop of `normalize_digits`, appending one character per step. */
  method NormalizeDigits(u: CharTable, text: string) returns (r: string)
    ensures r == DigitsNormalized(u, text)
    ensures |r| == |text|
    ensures forall i :: 0 <= i < |text| && text[i] !in u.digit ==> r[i] == text[i]
    ensures forall i :: 0 <= i < |text| && text[i] in u.digit ==>
      IsAsciiDigit(r[i]) && r[i] as int - '0' as int == u.digit[text[i]]
  {
    if text == [] {
      return "";
    }
    var out := [];
    for i := 0 to |text|
      invariant out == DigitsNormalized(u, text[..i])
    {
      var ch := text[i];
      if ch in u.digit {
        out := out + [AsciiDigit(u.digit[ch])];
      } else {
        out := out + [ch];
      }
    }
    assert text[..|text|] == text;
    r := out;
  }

  /** Normalising keeps the length and works character by character, so it distributes over concatenation. */
  lemma DigitsNormalizedConcat(u: CharTable, a: string, b: string)
    ensures DigitsNormalized(u, a + b) == DigitsNormalized(u, a) + DigitsNormalized(u, b)
  {
  }

  /** After normalising, every digit left is an ASCII digit. */
  lemma NormalizedDigitsAreAscii(u: CharTable, text: string)
    requires Valid(u)
    ensures forall i :: 0 <= i < |text| && DigitsNormalized(u, text)[i] in u.digit ==>
      IsAsciiDigit(DigitsNormalized(u, text)[i])
  {
  }

  /** `normalize_digits(normalize_digits(x)) == normalize_digits(x)`. */
  lemma NormalizeDigitsIdempotent(u: CharTable, text: string)
    requires Valid(u)
    ensures DigitsNormalized(u, DigitsNormalized(u, text)) == DigitsNormalized(u, text)
  {
    var once := DigitsNormalized(u, text);
    forall i | 0 <= i < |once|
      ensures DigitChar(u, once[i]) == once[i]
    {
      if text[i] in u.digit {
        var c := once[i];
        assert IsAsciiDigit(c) && c in u.digit;
      }
    }
  }
}
