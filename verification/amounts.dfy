/**
 * `_normalize_amount` (services/checks.py): the canonical decimal string of
 * a numeral. Sign, currency and grouping are dropped; the rightmost `,` or
 * `.` is the decimal point.
 */
module Amounts {
  import opened Text
  import opened Digits

  const CurrencyCodes: seq<string> :=
    ["USD", "EUR", "GBP", "PKR", "AUD", "CAD", "JPY", "CNY", "INR", "SAR", "AED"]

  /** `$`, the euro, pound, yen and rupee signs. */
  const CurrencySymbols: string := "$\U{20ac}\U{a3}\U{a5}\U{20b9}"

  /** One of the currency codes starts `s`, compared case-insensitively. */
  predicate StartsWithCode(s: string) {
    |s| >= 3 && exists code | code in CurrencyCodes :: FoldEq(s[..3], code)
  }

  /** `\s*`: drops leading white space. */
  function SkipSpaces(s: string): (r: string)
    ensures |r| <= |s| && r == s[|s| - |r|..]
    ensures forall i :: 0 <= i < |s| - |r| ==> IsSpace(s[i])
    ensures r == [] || !IsSpace(r[0])
  {
    if s != [] && IsSpace(s[0]) then SkipSpaces(s[1..]) else s
  }

  /**
   * The substitution of `(USD|...|AED|\$|€|£|¥|₹)\s*` by the empty string,
   * case-insensitively, scanning left to right; the codes are tried before
   * the symbols at each position.
   */
  function StripCurrency(s: string): string
    decreases |s|
  {
    if s == [] then []
    else if StartsWithCode(s) then StripCurrency(SkipSpaces(s[3..]))
    else if s[0] in CurrencySymbols then StripCurrency(SkipSpaces(s[1..]))
    else [s[0]] + StripCurrency(s[1..])
  }

  /** `.replace(' ', ' ')`. */
  function ReplaceNbsp(s: string): (r: string)
    ensures |r| == |s|
    ensures forall i :: 0 <= i < |s| ==> r[i] == if s[i] == '\U{a0}' then ' ' else s[i]
  {
    if s == [] then []
    else [if s[0] == '\U{a0}' then ' ' else s[0]] + ReplaceNbsp(s[1..])
  }

  predicate IsAmountChar(c: char) {
    IsAsciiDigit(c) || c == '.' || c == ','
  }

  /** The substitution of `[^0-9.,]` by the empty string. */
  function KeepAmountChars(s: string): (r: string)
    ensures forall i :: 0 <= i < |r| ==> IsAmountChar(r[i])
  {
    if s == [] then []
    else (if IsAmountChar(s[0]) then [s[0]] else []) + KeepAmountChars(s[1..])
  }

  /** The substitution of `[.,\s]` by the empty string. */
  function RemoveSeparators(s: string): (r: string)
    ensures (forall i :: 0 <= i < |s| ==> IsAmountChar(s[i])) ==>
      forall i :: 0 <= i < |r| ==> IsAsciiDigit(r[i])
  {
    if s == [] then []
    else (if s[0] in ".," || IsSpace(s[0]) then [] else [s[0]]) + RemoveSeparators(s[1..])
  }

  /** The index of the rightmost `,` or `.` before index `n`. */
  function LastSeparatorBefore(s: string, n: nat): (r: Option<nat>)
    requires n <= |s|
    ensures r.Some? ==> r.value < n && s[r.value] in ".," && forall i :: r.value < i < n ==> s[i] !in ".,"
    ensures r.None? ==> forall i :: 0 <= i < n ==> s[i] !in ".,"
  {
    if n == 0 then None
    else if s[n - 1] in ".," then Some(n - 1)
    else LastSeparatorBefore(s, n - 1)
  }

  /** The index of the rightmost `,` or `.`: `max(s.rfind(','), s.rfind('.'))`. */
  function LastSeparator(s: string): (r: Option<nat>)
    ensures r.Some? ==> r.value < |s| && s[r.value] in ".," && forall i :: r.value < i < |s| ==> s[i] !in ".,"
    ensures r.None? ==> forall i :: 0 <= i < |s| ==> s[i] !in ".,"
  {
    LastSeparatorBefore(s, |s|)
  }

  /** The integer part, then `.` and the fractional part when a separator is left. */
  function Canonical(s2: string): string {
    if s2 == [] then ""
    else match LastSeparator(s2)
      case None => RemoveSeparators(s2)
      case Some(k) => RemoveSeparators(s2[..k]) + "." + RemoveSeparators(s2[k + 1..])
  }

  /** A canonical amount: ASCII digits with at most one `.`. */
  predicate IsCanonicalShape(r: string) {
    && (forall i :: 0 <= i < |r| ==> IsAsciiDigit(r[i]) || r[i] == '.')
    && (forall i, j :: 0 <= i < j < |r| && r[i] == '.' ==> r[j] != '.')
  }

  /** `_normalize_amount(s)`. */
  function NormalizeAmount(u: CharTable, s: string): (r: string)
    ensures IsCanonicalShape(r)
  {
    var s1 := ReplaceNbsp(DigitsNormalized(u, Strip(s)));
    var s2 := KeepAmountChars(StripCurrency(s1));
    CanonicalShape(s2);
    Canonical(s2)
  }

  lemma CanonicalShape(s2: string)
    requires forall i :: 0 <= i < |s2| ==> IsAmountChar(s2[i])
    ensures IsCanonicalShape(Canonical(s2))
  {
    if s2 != [] && LastSeparator(s2).Some? {
      var k := LastSeparator(s2).value;
      var a, b := RemoveSeparators(s2[..k]), RemoveSeparators(s2[k + 1..]);
      var r := a + "." + b;
      assert forall i :: 0 <= i < |r| && i != |a| ==> IsAsciiDigit(r[i]);
    }
  }

  // ---- The filter of `[^0-9.,]` absorbs everything before it ----

  lemma {:induction false} KeepConcat(a: string, b: string)
    ensures KeepAmountChars(a + b) == KeepAmountChars(a) + KeepAmountChars(b)
  {
    if a == [] {
      assert a + b == b;
    } else {
      assert (a + b)[1..] == a[1..] + b;
      KeepConcat(a[1..], b);
    }
  }

  lemma {:induction false} KeepNothing(a: string)
    requires forall i :: 0 <= i < |a| ==> !IsAmountChar(a[i])
    ensures KeepAmountChars(a) == []
  {
    if a != [] {
      KeepNothing(a[1..]);
    }
  }

  lemma {:induction false} KeepAll(a: string)
    requires forall i :: 0 <= i < |a| ==> IsAmountChar(a[i])
    ensures KeepAmountChars(a) == a
  {
    if a != [] {
      KeepAll(a[1..]);
      assert a == [a[0]] + a[1..];
    }
  }

  /** Every currency code is three capital ASCII letters. */
  lemma CodesAreLetters()
    ensures forall code | code in CurrencyCodes :: |code| == 3 && forall k :: 0 <= k < 3 ==> 'A' <= code[k] <= 'Z'
  {
  }

  /** A currency code holds no digit, `.` or `,`. */
  lemma CodeHasNoAmountChar(s: string)
    requires StartsWithCode(s)
    ensures forall i :: 0 <= i < 3 ==> !IsAmountChar(s[i])
  {
    var code :| code in CurrencyCodes && FoldEq(s[..3], code);
    CodesAreLetters();
    forall i | 0 <= i < 3
      ensures !IsAmountChar(s[i])
    {
      assert CaseFold(s[..3][i]) == CaseFold(code[i]);
      assert 'a' <= CaseFold(code[i]) <= 'z';
    }
  }

  lemma {:induction false} KeepSkipSpaces(s: string)
    ensures KeepAmountChars(SkipSpaces(s)) == KeepAmountChars(s)
  {
    var r := SkipSpaces(s);
    var cut := s[..|s| - |r|];
    assert s == cut + r;
    KeepConcat(cut, r);
    KeepNothing(cut);
  }

  /** Dropping a code or a symbol and the white space after it leaves the same digits and separators. */
  lemma KeepDropPrefix(s: string, n: nat)
    requires n <= |s|
    requires forall i :: 0 <= i < n ==> !IsAmountChar(s[i])
    ensures KeepAmountChars(SkipSpaces(s[n..])) == KeepAmountChars(s)
  {
    var a, b := s[..n], s[n..];
    KeepSkipSpaces(b);
    SplitAt(s, n);
    KeepConcat(a, b);
    forall i | 0 <= i < |a|
      ensures !IsAmountChar(a[i])
    {
      assert a[i] == s[i];
    }
    KeepNothing(a);
  }

  lemma SplitAt(s: string, n: nat)
    requires n <= |s|
    ensures s == s[..n] + s[n..]
  {
  }

  /** Dropping a currency symbol and the white space after it leaves the same digits and separators. */
  lemma KeepDropSymbol(s: string)
    requires s != [] && s[0] in CurrencySymbols
    ensures KeepAmountChars(SkipSpaces(s[1..])) == KeepAmountChars(s)
  {
    assert !IsAmountChar(s[0]);
    KeepDropPrefix(s, 1);
  }

  /** Removing currency does not change which digits and separators remain. */
  lemma {:induction false} KeepStripCurrency(s: string)
    ensures KeepAmountChars(StripCurrency(s)) == KeepAmountChars(s)
    decreases |s|
  {
    if s == [] {
    } else if StartsWithCode(s) {
      CodeHasNoAmountChar(s);
      KeepStripCurrency(SkipSpaces(s[3..]));
      KeepDropPrefix(s, 3);
    } else if s[0] in CurrencySymbols {
      KeepStripCurrency(SkipSpaces(s[1..]));
      KeepDropSymbol(s);
    } else {
      var rest := StripCurrency(s[1..]);
      assert StripCurrency(s) == [s[0]] + rest;
      KeepStripCurrency(s[1..]);
      KeepConcat([s[0]], rest);
      assert s == [s[0]] + s[1..];
      KeepConcat([s[0]], s[1..]);
    }
  }

  lemma {:induction false} KeepReplaceNbsp(s: string)
    ensures KeepAmountChars(ReplaceNbsp(s)) == KeepAmountChars(s)
  {
    if s != [] {
      KeepReplaceNbsp(s[1..]);
    }
  }

  /** White space is neither Nd nor a digit, `.` or `,`. */
  lemma SpaceIsNoise(u: CharTable, c: char)
    requires Valid(u)
    requires IsStripSpace(c)
    ensures c !in u.digit && !IsAmountChar(c)
  {
  }

  /** Characters that are neither Nd nor a digit, `.` or `,` vanish from the amount. */
  lemma KeepNormalizedNoise(u: CharTable, a: string)
    requires forall i :: 0 <= i < |a| ==> a[i] !in u.digit && !IsAmountChar(a[i])
    ensures KeepAmountChars(DigitsNormalized(u, a)) == []
  {
    KeepNothing(DigitsNormalized(u, a));
  }

  /**
   * Stripping, the NBSP replacement and the currency substitution never
   * change the result: an amount is decided by its Nd characters, dots and
   * commas alone.
   */
  lemma AmountOfNormalizedChars(u: CharTable, s: string)
    requires Valid(u)
    ensures NormalizeAmount(u, s) == Canonical(KeepAmountChars(DigitsNormalized(u, s)))
  {
    var st := Strip(s);
    KeepDropsStrip(u, s);
    var s1 := ReplaceNbsp(DigitsNormalized(u, st));
    KeepStripCurrency(s1);
    KeepReplaceNbsp(DigitsNormalized(u, st));
  }

  /** The white space `strip` removes would not have survived the filter either. */
  lemma KeepDropsStrip(u: CharTable, s: string)
    requires Valid(u)
    ensures KeepAmountChars(DigitsNormalized(u, Strip(s))) == KeepAmountChars(DigitsNormalized(u, s))
  {
    var lo := StripSlice(s);
    var hi := lo + |Strip(s)|;
    NoiseSlice(u, s, 0, lo);
    NoiseSlice(u, s, hi, |s|);
    ThreeSlices(s, lo, hi);
    KeepDropsFrame(u, s[0..lo], s[lo..hi], s[hi..|s|]);
  }

  lemma ThreeSlices(s: string, lo: nat, hi: nat)
    requires lo <= hi <= |s|
    ensures s == s[0..lo] + s[lo..hi] + s[hi..|s|]
  {
  }

  /** A run of white space is noise for the amount. */
  lemma NoiseSlice(u: CharTable, s: string, lo: nat, hi: nat)
    requires Valid(u)
    requires lo <= hi <= |s|
    requires forall i :: lo <= i < hi ==> IsStripSpace(s[i])
    ensures forall i :: 0 <= i < hi - lo ==> s[lo..hi][i] !in u.digit && !IsAmountChar(s[lo..hi][i])
  {
    forall i | 0 <= i < hi - lo
      ensures s[lo..hi][i] !in u.digit && !IsAmountChar(s[lo..hi][i])
    {
      SpaceIsNoise(u, s[lo + i]);
    }
  }

  lemma KeepDropsFrame(u: CharTable, pre: string, mid: string, post: string)
    requires forall i :: 0 <= i < |pre| ==> pre[i] !in u.digit && !IsAmountChar(pre[i])
    requires forall i :: 0 <= i < |post| ==> post[i] !in u.digit && !IsAmountChar(post[i])
    ensures KeepAmountChars(DigitsNormalized(u, pre + mid + post)) == KeepAmountChars(DigitsNormalized(u, mid))
  {
    DigitsNormalizedConcat(u, pre + mid, post);
    DigitsNormalizedConcat(u, pre, mid);
    var dp, dm, dq := DigitsNormalized(u, pre), DigitsNormalized(u, mid), DigitsNormalized(u, post);
    KeepNormalizedNoise(u, pre);
    KeepNormalizedNoise(u, post);
    KeepConcat(dp + dm, dq);
    KeepConcat(dp, dm);
    assert KeepAmountChars(dp + dm) + [] == KeepAmountChars(dm);
  }

  /**
   * Inserting characters that are neither Nd nor a digit, `.` or `,` (a sign,
   * a currency code or symbol, white space) anywhere leaves the amount
   * unchanged; so `"-5"`, `"+5"` and `"USD 5"` all canonicalise like `"5"`.
   */
  lemma AmountIgnoresNoise(u: CharTable, a: string, noise: string, b: string)
    requires Valid(u)
    requires forall i :: 0 <= i < |noise| ==> noise[i] !in u.digit && !IsAmountChar(noise[i])
    ensures NormalizeAmount(u, a + noise + b) == NormalizeAmount(u, a + b)
  {
    NormalizedNoiseDrops(u, a, noise, b);
    AmountOfNormalizedChars(u, a + noise + b);
    AmountOfNormalizedChars(u, a + b);
  }

  lemma NormalizedNoiseDrops(u: CharTable, a: string, noise: string, b: string)
    requires forall i :: 0 <= i < |noise| ==> noise[i] !in u.digit && !IsAmountChar(noise[i])
    ensures KeepAmountChars(DigitsNormalized(u, a + noise + b)) == KeepAmountChars(DigitsNormalized(u, a + b))
  {
    DigitsNormalizedConcat(u, a + noise, b);
    DigitsNormalizedConcat(u, a, noise);
    DigitsNormalizedConcat(u, a, b);
    var da, dn, db := DigitsNormalized(u, a), DigitsNormalized(u, noise), DigitsNormalized(u, b);
    KeepNormalizedNoise(u, noise);
    KeepConcat(da + dn, db);
    KeepConcat(da, dn);
    KeepConcat(da, db);
  }

  /** A sign in front of a number is dropped: `"-5"` and `"5"` give the same amount. */
  lemma AmountIgnoresSign(u: CharTable, sign: char, s: string)
    requires Valid(u)
    requires sign == '-' || sign == '+'
    ensures NormalizeAmount(u, [sign] + s) == NormalizeAmount(u, s)
  {
    NotNd(u, sign);
    NormalizedNoiseDrops(u, [], [sign], s);
    assert [] + [sign] + s == [sign] + s;
    assert [] + s == s;
    AmountOfNormalizedChars(u, [sign] + s);
    AmountOfNormalizedChars(u, s);
  }

  /** A Latin-1 character other than an ASCII digit is not Nd. */
  lemma NotNd(u: CharTable, c: char)
    requires Valid(u)
    requires c <= '\U{ff}' && !IsAsciiDigit(c)
    ensures c !in u.digit
  {
  }

  /** ASCII digits, dots and commas are already digit-normalised and pass the filter. */
  lemma AmountCharsUntouched(u: CharTable, s: string)
    requires Valid(u)
    requires forall i :: 0 <= i < |s| ==> IsAmountChar(s[i])
    ensures KeepAmountChars(DigitsNormalized(u, s)) == s
  {
    var d := DigitsNormalized(u, s);
    forall i | 0 <= i < |s|
      ensures d[i] == s[i]
    {
      if s[i] in u.digit {
        assert IsAsciiDigit(s[i]);
      }
    }
    assert d == s;
    KeepAll(s);
  }

  lemma {:induction false} RemoveSeparatorsDigits(s: string)
    requires forall i :: 0 <= i < |s| ==> IsAsciiDigit(s[i])
    ensures RemoveSeparators(s) == s
  {
    if s != [] {
      RemoveSeparatorsDigits(s[1..]);
      assert s == [s[0]] + s[1..];
    }
  }

  lemma {:induction false} RemoveSeparatorsConcat(a: string, b: string)
    ensures RemoveSeparators(a + b) == RemoveSeparators(a) + RemoveSeparators(b)
  {
    if a == [] {
      assert a + b == b;
    } else {
      assert (a + b)[1..] == a[1..] + b;
      RemoveSeparatorsConcat(a[1..], b);
    }
  }

  /** A canonical amount is its own canonical form. */
  lemma CanonicalFixed(r: string)
    requires IsCanonicalShape(r)
    ensures Canonical(r) == r
  {
    if r != [] {
      match LastSeparator(r)
      case None =>
        RemoveSeparatorsDigits(r);
      case Some(k) =>
        CanonicalFixedAt(r, k);
    }
  }

  lemma CanonicalFixedAt(r: string, k: nat)
    requires IsCanonicalShape(r)
    requires k < |r| && r[k] in ".,"
    ensures RemoveSeparators(r[..k]) + "." + RemoveSeparators(r[k + 1..]) == r
  {
    var a, b := r[..k], r[k + 1..];
    assert forall i :: 0 <= i < |a| ==> a[i] == r[i];
    assert forall i :: 0 <= i < |b| ==> b[i] == r[k + 1 + i];
    RemoveSeparatorsDigits(a);
    RemoveSeparatorsDigits(b);
    assert r == a + [r[k]] + b;
  }

  /** Canonical amounts are fixed points: `_normalize_amount(_normalize_amount(s)) == _normalize_amount(s)`. */
  lemma NormalizeAmountIdempotent(u: CharTable, s: string)
    requires Valid(u)
    ensures NormalizeAmount(u, NormalizeAmount(u, s)) == NormalizeAmount(u, s)
  {
    var r := NormalizeAmount(u, s);
    AmountOfNormalizedChars(u, r);
    AmountCharsUntouched(u, r);
    CanonicalFixed(r);
  }

  /** The result is empty exactly when the text holds no Nd character, `.` or `,`. */
  lemma AmountEmptyIff(u: CharTable, s: string)
    requires Valid(u)
    ensures NormalizeAmount(u, s) == "" <==> KeepAmountChars(DigitsNormalized(u, s)) == ""
  {
    AmountOfNormalizedChars(u, s);
    var s2 := KeepAmountChars(DigitsNormalized(u, s));
    if s2 != [] && LastSeparator(s2).None? {
      assert !IsSpace(s2[0]);
      assert RemoveSeparators(s2) != [];
    }
  }

  /** A plain numeral of ASCII digits, dots and commas is only canonicalised. */
  lemma AmountOfPlainNumeral(u: CharTable, s: string)
    requires Valid(u)
    requires forall i :: 0 <= i < |s| ==> IsAmountChar(s[i])
    ensures NormalizeAmount(u, s) == Canonical(s)
  {
    AmountOfNormalizedChars(u, s);
    AmountCharsUntouched(u, s);
  }

  /**
   * The rightmost separator is the decimal point and every separator before
   * it is dropped, so `"1,250.50"` gives `"1250.50"`.
   */
  lemma RightmostSeparatorIsDecimal(u: CharTable, s: string, k: nat)
    requires Valid(u)
    requires forall i :: 0 <= i < |s| ==> IsAmountChar(s[i])
    requires k < |s| && s[k] in ".,"
    requires forall i :: k < i < |s| ==> IsAsciiDigit(s[i])
    ensures NormalizeAmount(u, s) == RemoveSeparators(s[..k]) + "." + s[k + 1..]
  {
    LastSeparatorFrom(s, k, |s|);
    AmountOfPlainNumeral(u, s);
    CanonicalAt(s, k);
    RemoveSeparatorsDigits(s[k + 1..]);
  }

  /** Scanning back from `n`, the first separator met is at `k`. */
  lemma {:induction false} LastSeparatorFrom(s: string, k: nat, n: nat)
    requires k < n <= |s| && s[k] in ".,"
    requires forall i :: k < i < n ==> IsAsciiDigit(s[i])
    ensures LastSeparatorBefore(s, n) == Some(k)
    decreases n
  {
    if n - 1 != k {
      LastSeparatorFrom(s, k, n - 1);
    }
  }

  /** With its last separator at `k`, a numeral reads as integer part, `.`, fraction. */
  lemma CanonicalAt(s: string, k: nat)
    requires k < |s| && LastSeparator(s) == Some(k)
    ensures Canonical(s) == RemoveSeparators(s[..k]) + "." + RemoveSeparators(s[k + 1..])
  {
  }

  /**
   * A single separator is always decimal, whichever of `.` and `,` it is:
   * `"1,250"` gives `"1.250"` and `"1250,50"` gives `"1250.50"`.
   */
  lemma LoneSeparatorIsDecimal(u: CharTable, s: string, k: nat)
    requires Valid(u)
    requires k < |s| && s[k] in ".,"
    requires forall i :: 0 <= i < |s| && i != k ==> IsAsciiDigit(s[i])
    ensures NormalizeAmount(u, s) == s[..k] + "." + s[k + 1..]
  {
    RightmostSeparatorIsDecimal(u, s, k);
    RemoveSeparatorsDigits(s[..k]);
  }

  /**
   * A grouping separator before the decimal point is dropped:
   * `"1,250.50"` and `"1.250,50"` both give `"1250.50"`, like `"1250,50"`.
   */
  lemma GroupingSeparatorIgnored(u: CharTable, s: string, j: nat, k: nat)
    requires Valid(u)
    requires j < k < |s| && s[j] in ".," && s[k] in ".,"
    requires forall i :: 0 <= i < |s| && i != j && i != k ==> IsAsciiDigit(s[i])
    ensures NormalizeAmount(u, s) == s[..j] + s[j + 1..k] + "." + s[k + 1..]
  {
    RightmostSeparatorIsDecimal(u, s, k);
    DropGroupingSeparator(s, j, k);
  }

  lemma DropGroupingSeparator(s: string, j: nat, k: nat)
    requires j < k < |s| && s[j] in ".,"
    requires forall i :: 0 <= i < |s| && i != j && i != k ==> IsAsciiDigit(s[i])
    ensures RemoveSeparators(s[..k]) == s[..j] + s[j + 1..k]
  {
    var t := s[..k];
    RemoveOneSeparator(t, j);
    assert t[..j] == s[..j] && t[j + 1..] == s[j + 1..k];
  }

  /** Dropping the separators of digits with one separator removes just that one. */
  lemma {:induction false} RemoveOneSeparator(t: string, j: nat)
    requires j < |t| && t[j] in ".,"
    requires forall i :: 0 <= i < |t| && i != j ==> IsAsciiDigit(t[i])
    ensures RemoveSeparators(t) == t[..j] + t[j + 1..]
    decreases j
  {
    if j == 0 {
      RemoveSeparatorsDigits(t[1..]);
    } else {
      RemoveOneSeparator(t[1..], j - 1);
      assert t[..j] == [t[0]] + t[1..][..j - 1];
      assert t[j + 1..] == t[1..][j..];
    }
  }
}
