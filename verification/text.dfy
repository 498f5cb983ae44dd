/**
 * The pieces of Python's string library and of the Unicode character
 * database that the comparison engine relies on: character classes,
 * `str.strip`, `str.find`, substring tests and `str.join`.
 */
module Text {

  datatype Option<+T> = None | Some(value: T)

  /** A decimal digit value, as `unicodedata.digit` returns it. */
  type Digit = d: int | 0 <= d <= 9

  /**
   * The part of the Unicode character database the engine consults.
   * `digit` holds the characters of category Nd with their digit value;
   * `upper`, `lower` and `letter` are the categories Lu, Ll and L; `word`
   * is the regex class `\w`.
   */
  datatype CharTable = CharTable(
    digit: map<char, Digit>,
    upper: set<char>,
    lower: set<char>,
    letter: set<char>,
    word: set<char>)

  /**
   * Facts about the Unicode database that the model depends on: the ASCII
   * digits are Nd with their own value, the only Nd characters below U+0100
   * are the ASCII digits, no Nd character is white space, Lu and Ll are
   * disjoint letters, and letters, digits and `_` are word characters while
   * white space and the punctuation the patterns use are not.
   */
  ghost predicate Valid(u: CharTable) {
    && (forall c: char :: '0' <= c <= '9' ==> c in u.digit && u.digit[c] == c as int - '0' as int)
    && (forall c :: c in u.digit ==> ('0' <= c <= '9' || c > '\U{ff}') && !IsStripSpace(c))
    && (forall c :: c in u.digit ==> c in u.word)
    && u.upper !! u.lower
    && u.upper <= u.letter && u.lower <= u.letter
    && (forall c :: c in u.letter ==> c in u.word && c !in u.digit)
    && (forall c :: c in u.word ==> !IsSpace(c) && c !in ".,+-'%/")
  }

  /** The letters the month names are spelled with, in folded form. */
  predicate IsFoldedLetter(c: char) {
    'a' <= c <= 'z' || c == '\U{e9}' || c == '\U{fb}'
  }

  /** Every character that folds onto a letter of the month names is itself a letter. */
  ghost predicate FoldsOntoLetters(u: CharTable) {
    forall c :: IsFoldedLetter(CaseFold(c)) ==> c in u.letter
  }

  /** The folded letters fold onto themselves. */
  lemma FoldedLetterFixed(c: char)
    requires IsFoldedLetter(c)
    ensures CaseFold(c) == c
  {
  }

  /** `\s` of the regex engine: the characters with the Unicode White_Space property. */
  predicate IsSpace(c: char) {
    || c == ' ' || '\t' <= c <= '\r' || c == '\U{85}' || c == '\U{a0}' || c == '\U{1680}'
    || '\U{2000}' <= c <= '\U{200a}' || c == '\U{2028}' || c == '\U{2029}' || c == '\U{202f}'
    || c == '\U{205f}' || c == '\U{3000}'
  }

  /** `str.isspace`, which `str.strip` uses: `\s` plus the information separators U+001C..U+001F. */
  predicate IsStripSpace(c: char) {
    IsSpace(c) || '\U{1c}' <= c <= '\U{1f}'
  }

  /**
   * Simple case folding, as case-insensitive matching uses it, for the
   * characters that fold onto the letters the patterns spell: ASCII and
   * Latin-1 capitals, KELVIN SIGN (onto `k`) and LATIN SMALL LETTER LONG S
   * (onto `s`).
   */
  function CaseFold(c: char): char {
    if 'A' <= c <= 'Z' || ('\U{c0}' <= c <= '\U{de}' && c != '\U{d7}') then (c as int + 32) as char
    else if c == '\U{212a}' then 'k'
    else if c == '\U{17f}' then 's'
    else c
  }

  /** `a` and `b` are equal when compared case-insensitively. */
  predicate FoldEq(a: string, b: string) {
    |a| == |b| && forall k :: 0 <= k < |a| ==> CaseFold(a[k]) == CaseFold(b[k])
  }

  predicate IsAsciiDigit(c: char) {
    '0' <= c <= '9'
  }

  /** Drops leading `str.isspace` characters. */
  function TrimLeft(s: string): (r: string)
    ensures |r| <= |s| && r == s[|s| - |r|..]
    ensures forall i :: 0 <= i < |s| - |r| ==> IsStripSpace(s[i])
    ensures r != [] ==> !IsStripSpace(r[0])
  {
    if s != [] && IsStripSpace(s[0]) then TrimLeft(s[1..]) else s
  }

  /** Drops trailing `str.isspace` characters. */
  function TrimRight(s: string): (r: string)
    ensures |r| <= |s| && r == s[..|r|]
    ensures forall i :: |r| <= i < |s| ==> IsStripSpace(s[i])
    ensures r != [] ==> !IsStripSpace(r[|r| - 1])
  {
    if s != [] && IsStripSpace(s[|s| - 1]) then TrimRight(s[..|s| - 1]) else s
  }

  /** `str.strip()` with no argument. */
  function Strip(s: string): (r: string)
    ensures r != [] ==> !IsStripSpace(r[0]) && !IsStripSpace(r[|r| - 1])
  {
    TrimRight(TrimLeft(s))
  }

  /** `s.strip()` is a slice of `s`, and everything cut away is white space. */
  lemma StripSlice(s: string) returns (lo: nat)
    ensures lo + |Strip(s)| <= |s| && Strip(s) == s[lo..lo + |Strip(s)|]
    ensures forall i :: 0 <= i < lo ==> IsStripSpace(s[i])
    ensures forall i :: lo + |Strip(s)| <= i < |s| ==> IsStripSpace(s[i])
  {
    var l := TrimLeft(s);
    lo := |s| - |l|;
    var r := TrimRight(l);
    PrefixOfSuffix(s, lo, l, r);
  }

  /** A prefix `r` of a suffix `l` of `s` is a slice of `s`; what follows it in `l` follows it in `s`. */
  lemma PrefixOfSuffix(s: string, lo: nat, l: string, r: string)
    requires lo <= |s| && l == s[lo..]
    requires |r| <= |l| && r == l[..|r|]
    requires forall i :: |r| <= i < |l| ==> IsStripSpace(l[i])
    ensures lo + |r| <= |s| && r == s[lo..lo + |r|]
    ensures forall i :: lo + |r| <= i < |s| ==> IsStripSpace(s[i])
  {
    forall i | lo + |r| <= i < |s|
      ensures IsStripSpace(s[i])
    {
      assert s[i] == l[i - lo];
    }
  }

  /** Text with no white space at either end is left alone by `strip`. */
  lemma StripUnchanged(s: string)
    requires s == [] || (!IsStripSpace(s[0]) && !IsStripSpace(s[|s| - 1]))
    ensures Strip(s) == s
  {
  }

  /** `sub` occurs in `s` at index `i`. */
  predicate OccursAt(s: string, sub: string, i: nat) {
    i + |sub| <= |s| && s[i..i + |sub|] == sub
  }

  /** `s.find(sub, start)`: the first occurrence at or after `start`, `None` for -1. */
  function Find(s: string, sub: string, start: nat): (r: Option<nat>)
    ensures r.Some? ==> start <= r.value && OccursAt(s, sub, r.value)
    decreases |s| - start
  {
    if start + |sub| > |s| then None
    else if s[start..start + |sub|] == sub then Some(start)
    else Find(s, sub, start + 1)
  }

  /** `find` returns the first occurrence at or after `start`, and -1 only when there is none. */
  lemma {:induction false} FindFirst(s: string, sub: string, start: nat)
    ensures Find(s, sub, start).Some? ==> forall i :: start <= i < Find(s, sub, start).value ==> !OccursAt(s, sub, i)
    ensures Find(s, sub, start).None? ==> forall i :: start <= i ==> !OccursAt(s, sub, i)
    decreases |s| - start
  {
    if start + |sub| <= |s| && s[start..start + |sub|] != sub {
      FindFirst(s, sub, start + 1);
    }
  }

  /** `sub in s` for two strings. */
  predicate Contains(s: string, sub: string) {
    exists i: nat | i <= |s| - |sub| :: OccursAt(s, sub, i)
  }

  /** `sep.join(parts)`. */
  function Join(parts: seq<string>, sep: string): string {
    if parts == [] then ""
    else if |parts| == 1 then parts[0]
    else parts[0] + sep + Join(parts[1..], sep)
  }
}
