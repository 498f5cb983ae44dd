/**
 * Date detection (services/checks.py): the ISO formatting of a found date,
 * the strict numeric date shapes, the month-name search and the filter that
 * `_find_dates_any_language` applies to the candidates of the date parser.
 */
module Dates {
  import opened Text

  /** `datetime` years run from MINYEAR 1 to MAXYEAR 9999. */
  type Year = y: int | 1 <= y <= 9999 witness 1
  type Month = m: int | 1 <= m <= 12 witness 1
  type Day = d: int | 1 <= d <= 31 witness 1

  datatype Date = Date(year: Year, month: Month, day: Day)

  /**
   * One result of the date parser: the text it matched and the date it read.
   * `None` stands for a value `to_iso` cannot format.
   */
  datatype Candidate = Candidate(raw: string, date: Option<Date>)

  // ---- `to_iso`: zero-padded `YYYY-MM-DD` ----

  function Pow10(w: nat): (p: nat)
    ensures p >= 1
  {
    if w == 0 then 1 else 10 * Pow10(w - 1)
  }

  predicate AllAsciiDigits(s: string) {
    forall i :: 0 <= i < |s| ==> IsAsciiDigit(s[i])
  }

  /** The number an ASCII digit string spells, most significant digit first. */
  function DigitsValue(s: string): nat
    requires AllAsciiDigits(s)
  {
    if s == [] then 0 else 10 * DigitsValue(s[..|s| - 1]) + (s[|s| - 1] as int - '0' as int)
  }

  /** `f"{n:0{w}d}"` for an `n` that fits in `w` digits. */
  function ZeroPadded(n: nat, w: nat): (r: string)
    requires n < Pow10(w)
    ensures |r| == w && AllAsciiDigits(r)
    ensures DigitsValue(r) == n
  {
    if w == 0 then "" else ZeroPadded(n / 10, w - 1) + [('0' as int + n % 10) as char]
  }

  /** Reading a digit string back and padding it to its own width gives it back. */
  lemma {:induction false} ZeroPaddedOfValue(s: string)
    requires AllAsciiDigits(s)
    ensures DigitsValue(s) < Pow10(|s|)
    ensures ZeroPadded(DigitsValue(s), |s|) == s
  {
    if s != [] {
      var init := s[..|s| - 1];
      ZeroPaddedOfValue(init);
      var n := DigitsValue(s);
      assert n / 10 == DigitsValue(init) && n % 10 == s[|s| - 1] as int - '0' as int;
      assert s == init + [s[|s| - 1]];
    }
  }

  /** `YYYY-MM-DD`: ten ASCII characters, dashes at 4 and 7 and digits elsewhere. */
  predicate IsIsoForm(s: string) {
    |s| == 10 && s[4] == '-' && s[7] == '-'
    && AllAsciiDigits(s[..4]) && AllAsciiDigits(s[5..7]) && AllAsciiDigits(s[8..])
  }

  /** `to_iso(dt)`. */
  function ToIso(d: Date): (r: string)
    ensures IsIsoForm(r)
  {
    var r := ZeroPadded(d.year, 4) + "-" + ZeroPadded(d.month, 2) + "-" + ZeroPadded(d.day, 2);
    assert r[..4] == ZeroPadded(d.year, 4);
    assert r[5..7] == ZeroPadded(d.month, 2);
    assert r[8..] == ZeroPadded(d.day, 2);
    r
  }

  /** The date an ISO string names, when it is in range; the inverse of `ToIso`. */
  function ParseIso(s: string): (r: Option<Date>)
    ensures r.Some? ==> IsIsoForm(s)
  {
    if !IsIsoForm(s) then None
    else
      var y, m, d := DigitsValue(s[..4]), DigitsValue(s[5..7]), DigitsValue(s[8..]);
      if 1 <= y <= 9999 && 1 <= m <= 12 && 1 <= d <= 31 then Some(Date(y, m, d)) else None
  }

  /** Formatting loses nothing: the date can be read back from its ISO string. */
  lemma IsoRoundTrip(d: Date)
    ensures ParseIso(ToIso(d)) == Some(d)
  {
    var r := ToIso(d);
    assert r[..4] == ZeroPadded(d.year, 4);
    assert r[5..7] == ZeroPadded(d.month, 2);
    assert r[8..] == ZeroPadded(d.day, 2);
  }

  /** Every ISO string that names a date in range is the formatting of that date. */
  lemma IsoParseRoundTrip(s: string)
    requires ParseIso(s).Some?
    ensures ToIso(ParseIso(s).value) == s
  {
    var d := ParseIso(s).value;
    ZeroPaddedOfValue(s[..4]);
    ZeroPaddedOfValue(s[5..7]);
    ZeroPaddedOfValue(s[8..]);
    assert s == s[..4] + "-" + s[5..7] + "-" + s[8..];
  }

  /** Two dates with the same ISO string are the same date. */
  lemma ToIsoInjective(d1: Date, d2: Date)
    requires ToIso(d1) == ToIso(d2)
    ensures d1 == d2
  {
    IsoRoundTrip(d1);
    IsoRoundTrip(d2);
  }

  // ---- `_looks_like_numeric_date` ----

  /** `\d` over `s[lo..hi]`: every character is of category Nd. */
  predicate DigitsAt(u: CharTable, s: string, lo: nat, hi: nat) {
    lo <= hi <= |s| && forall i :: lo <= i < hi ==> s[i] in u.digit
  }

  /** `^\d{a}([/\-.])\d{b}\1\d{4}$`: day, month, year with one separator used twice. */
  predicate DayFirstAt(u: CharTable, s: string, a: nat, b: nat) {
    && |s| == a + b + 6
    && DigitsAt(u, s, 0, a) && s[a] in "/-."
    && DigitsAt(u, s, a + 1, a + 1 + b) && s[a + 1 + b] == s[a]
    && DigitsAt(u, s, a + b + 2, |s|)
  }

  /** `^\d{4}([\-\.])\d{b}\1\d{c}$`: year, month, day; a slash is not allowed. */
  predicate YearFirstAt(u: CharTable, s: string, b: nat, c: nat) {
    && |s| == b + c + 6
    && DigitsAt(u, s, 0, 4) && s[4] in "-."
    && DigitsAt(u, s, 5, 5 + b) && s[5 + b] == s[4]
    && DigitsAt(u, s, 6 + b, |s|)
  }

  /** What the two patterns accept, every choice of `\d{1,2}` written out. */
  predicate NumericDateShape(u: CharTable, s: string) {
    || DayFirstAt(u, s, 1, 1) || DayFirstAt(u, s, 1, 2) || DayFirstAt(u, s, 2, 1) || DayFirstAt(u, s, 2, 2)
    || YearFirstAt(u, s, 1, 1) || YearFirstAt(u, s, 1, 2) || YearFirstAt(u, s, 2, 1) || YearFirstAt(u, s, 2, 2)
  }

  /** The length of the run of Nd characters starting at `i`. */
  function DigitRun(u: CharTable, s: string, i: nat): (n: nat)
    requires i <= |s|
    ensures i + n <= |s| && DigitsAt(u, s, i, i + n)
    ensures i + n < |s| ==> s[i + n] !in u.digit
    decreases |s| - i
  {
    if i < |s| && s[i] in u.digit then 1 + DigitRun(u, s, i + 1) else 0
  }

  /** The first pattern, matched left to right: each digit run is taken whole. */
  predicate MatchDayFirst(u: CharTable, s: string) {
    var a := DigitRun(u, s, 0);
    1 <= a <= 2 && a < |s| && s[a] in "/-." &&
    var b := DigitRun(u, s, a + 1);
    1 <= b <= 2 && a + 1 + b < |s| && s[a + 1 + b] == s[a] &&
    DigitRun(u, s, a + b + 2) == 4 && |s| == a + b + 6
  }

  /** The second pattern, matched left to right. */
  predicate MatchYearFirst(u: CharTable, s: string) {
    DigitRun(u, s, 0) == 4 && |s| > 4 && s[4] in "-." &&
    var b := DigitRun(u, s, 5);
    1 <= b <= 2 && 5 + b < |s| && s[5 + b] == s[4] &&
    var c := DigitRun(u, s, 6 + b);
    1 <= c <= 2 && |s| == 6 + b + c
  }

  /**
   * `_looks_like_numeric_date(raw)`. `$` could also match before a final
   * newline, but the stripped text never ends with one.
   */
  predicate LooksLikeNumericDate(u: CharTable, raw: string) {
    var s := Strip(raw);
    MatchDayFirst(u, s) || MatchYearFirst(u, s)
  }

  /** Separators and Nd characters are disjoint under a valid table. */
  lemma SeparatorNotDigit(u: CharTable, c: char)
    requires Valid(u)
    requires c in "/-."
    ensures c !in u.digit
  {
  }

  /** A run of Nd characters followed by a non-digit is exactly as long as the run. */
  lemma DigitRunIs(u: CharTable, s: string, i: nat, n: nat)
    requires DigitsAt(u, s, i, i + n)
    requires i + n == |s| || s[i + n] !in u.digit
    ensures DigitRun(u, s, i) == n
    decreases n
  {
    if n > 0 {
      DigitRunIs(u, s, i + 1, n - 1);
    }
  }

  /** Reading the digit runs whole finds a day-first date exactly when the pattern does. */
  lemma MatchDayFirstIff(u: CharTable, s: string)
    requires Valid(u)
    ensures MatchDayFirst(u, s) <==>
      DayFirstAt(u, s, 1, 1) || DayFirstAt(u, s, 1, 2) || DayFirstAt(u, s, 2, 1) || DayFirstAt(u, s, 2, 2)
  {
    if a: nat, b: nat :| 1 <= a <= 2 && 1 <= b <= 2 && DayFirstAt(u, s, a, b) {
      SeparatorNotDigit(u, s[a]);
      DigitRunIs(u, s, 0, a);
      DigitRunIs(u, s, a + 1, b);
      DigitRunIs(u, s, a + b + 2, 4);
    }
  }

  /** Reading the digit runs whole finds a year-first date exactly when the pattern does. */
  lemma MatchYearFirstIff(u: CharTable, s: string)
    requires Valid(u)
    ensures MatchYearFirst(u, s) <==>
      YearFirstAt(u, s, 1, 1) || YearFirstAt(u, s, 1, 2) || YearFirstAt(u, s, 2, 1) || YearFirstAt(u, s, 2, 2)
  {
    if b: nat, c: nat :| 1 <= b <= 2 && 1 <= c <= 2 && YearFirstAt(u, s, b, c) {
      SeparatorNotDigit(u, s[4]);
      DigitRunIs(u, s, 0, 4);
      DigitRunIs(u, s, 5, b);
      DigitRunIs(u, s, 6 + b, c);
    }
  }

  /** `_looks_like_numeric_date` accepts exactly the stripped texts of one of the two shapes. */
  lemma NumericDateIff(u: CharTable, raw: string)
    requires Valid(u)
    ensures LooksLikeNumericDate(u, raw) <==> NumericDateShape(u, Strip(raw))
  {
    MatchDayFirstIff(u, Strip(raw));
    MatchYearFirstIff(u, Strip(raw));
  }

  /** A numeric date is between eight and ten characters once stripped. */
  lemma NumericDateLength(u: CharTable, raw: string)
    requires LooksLikeNumericDate(u, raw)
    ensures 8 <= |Strip(raw)| <= 10
  {
  }

  /** The date parser's own ISO output is accepted as a numeric date, in the year-first form. */
  lemma IsoIsNumericDate(u: CharTable, d: Date)
    requires Valid(u)
    ensures LooksLikeNumericDate(u, ToIso(d))
  {
    var s := ToIso(d);
    assert s[..4] == ZeroPadded(d.year, 4);
    assert s[5..7] == ZeroPadded(d.month, 2);
    assert s[8..] == ZeroPadded(d.day, 2);
    forall i | 0 <= i < 10 && i != 4 && i != 7
      ensures s[i] in u.digit
    {
      if i < 4 {
        assert s[i] == s[..4][i];
      } else if i < 7 {
        assert s[i] == s[5..7][i - 5];
      } else {
        assert s[i] == s[8..][i - 8];
      }
    }
    StripUnchanged(s);
    assert YearFirstAt(u, s, 2, 2);
    NumericDateIff(u, s);
  }

  /** `YYYY/MM/DD` is never a numeric date: a slash is only accepted after a day. */
  lemma SlashAfterYearRejected(u: CharTable, raw: string)
    requires Valid(u)
    requires |Strip(raw)| >= 5 && DigitsAt(u, Strip(raw), 0, 4) && Strip(raw)[4] == '/'
    ensures !LooksLikeNumericDate(u, raw)
  {
    var s := Strip(raw);
    assert s[1] in u.digit && s[2] in u.digit;
    NumericDateIff(u, raw);
  }

  // ---- `_has_month_word` ----

  /** The alternatives of MONTH_WORD_RE, in the order the pattern lists them. */
  const MonthWords: seq<string> := EnglishAbbreviations + SpanishMonths + FrenchMonths + EnglishMonths

  const EnglishAbbreviations: seq<string> :=
    ["jan", "feb", "mar", "apr", "may", "jun", "jul", "aug", "sep", "sept", "oct", "nov", "dec"]

  const SpanishMonths: seq<string> :=
    ["enero", "febrero", "marzo", "abril", "mayo", "junio", "julio", "agosto", "septiembre",
     "octubre", "noviembre", "diciembre"]

  const FrenchMonths: seq<string> :=
    ["janvier", "f\U{e9}vrier", "fevrier", "mars", "avril", "mai", "juin", "juillet", "ao\U{fb}t",
     "aout", "septembre", "octobre", "novembre", "d\U{e9}cembre", "decembre"]

  const EnglishMonths: seq<string> :=
    ["january", "february", "march", "april", "may", "june", "july", "august", "september",
     "october", "november", "december"]

  /** `\b` at position `i`: a word character on exactly one side. */
  predicate IsWordBoundary(u: CharTable, s: string, i: nat)
    requires i <= |s|
  {
    (i > 0 && s[i - 1] in u.word) != (i < |s| && s[i] in u.word)
  }

  /** `\b(?:...)\b` matches month word `w` at `i`, case-insensitively. */
  predicate MonthWordAt(u: CharTable, ctx: string, i: nat, w: string) {
    && i + |w| <= |ctx|
    && FoldEq(ctx[i..i + |w|], w)
    && IsWordBoundary(u, ctx, i) && IsWordBoundary(u, ctx, i + |w|)
  }

  /** `_has_month_word(ctx)`: MONTH_WORD_RE finds a match somewhere in `ctx`. */
  predicate HasMonthWord(u: CharTable, ctx: string) {
    WordFrom(u, ctx, MonthWords, 0)
  }

  /** The search for one of `words`, trying each start position from `i` in turn. */
  predicate WordFrom(u: CharTable, ctx: string, words: seq<string>, i: nat)
    requires i <= |ctx|
    decreases |ctx| - i
  {
    WordAmong(u, ctx, words, i, 0) || (i < |ctx| && WordFrom(u, ctx, words, i + 1))
  }

  /** The alternation, trying `words` from the `k`-th on at position `i`. */
  predicate WordAmong(u: CharTable, ctx: string, words: seq<string>, i: nat, k: nat)
    decreases |words| - k
  {
    k < |words| && (MonthWordAt(u, ctx, i, words[k]) || WordAmong(u, ctx, words, i, k + 1))
  }

  lemma {:induction false} WordAmongIff(u: CharTable, ctx: string, words: seq<string>, i: nat, k: nat)
    ensures WordAmong(u, ctx, words, i, k) <==> exists m :: k <= m < |words| && MonthWordAt(u, ctx, i, words[m])
    decreases |words| - k
  {
    if k < |words| {
      WordAmongIff(u, ctx, words, i, k + 1);
    }
  }

  lemma {:induction false} WordFromIff(u: CharTable, ctx: string, words: seq<string>, i: nat)
    requires i <= |ctx|
    ensures WordFrom(u, ctx, words, i) <==>
      exists j, m :: i <= j <= |ctx| && 0 <= m < |words| && MonthWordAt(u, ctx, j, words[m])
    decreases |ctx| - i
  {
    WordAmongIff(u, ctx, words, i, 0);
    if i < |ctx| {
      WordFromIff(u, ctx, words, i + 1);
    }
  }

  /** The search succeeds exactly when some month word matches at some position. */
  lemma HasMonthWordIff(u: CharTable, ctx: string)
    ensures HasMonthWord(u, ctx) <==> exists j, m :: 0 <= j <= |ctx| && 0 <= m < |MonthWords| && MonthWordAt(u, ctx, j, MonthWords[m])
  {
    WordFromIff(u, ctx, MonthWords, 0);
  }

  /** `w` begins and ends with a letter the month names are spelled with. */
  predicate LetterBounded(w: string) {
    |w| >= 3 && IsFoldedLetter(w[0]) && IsFoldedLetter(w[|w| - 1])
  }

  /** Every month word begins and ends with a folded letter. */
  lemma MonthWordsAreLetters(w: string)
    requires w in MonthWords
    ensures LetterBounded(w)
  {
    if w in EnglishAbbreviations {
      AbbreviationsAreLetters();
    } else if w in SpanishMonths {
      SpanishAreLetters();
    } else if w in FrenchMonths {
      FrenchAreLetters();
    } else {
      EnglishAreLetters();
    }
  }

  lemma AbbreviationsAreLetters()
    ensures forall w | w in EnglishAbbreviations :: LetterBounded(w)
  {
  }

  lemma SpanishAreLetters()
    ensures forall w | w in SpanishMonths :: LetterBounded(w)
  {
  }

  lemma FrenchAreLetters()
    ensures forall w | w in FrenchMonths :: LetterBounded(w)
  {
  }

  lemma EnglishAreLetters()
    ensures forall w | w in EnglishMonths :: LetterBounded(w)
  {
  }

  /** A word bounded by letters, matched with `\b` on both sides, stands between non-word characters. */
  lemma WholeWord(u: CharTable, ctx: string, i: nat, w: string)
    requires Valid(u) && FoldsOntoLetters(u)
    requires LetterBounded(w)
    requires MonthWordAt(u, ctx, i, w)
    ensures ctx[i] in u.word && ctx[i + |w| - 1] in u.word
    ensures i == 0 || ctx[i - 1] !in u.word
    ensures i + |w| == |ctx| || ctx[i + |w|] !in u.word
  {
    var m := ctx[i..i + |w|];
    assert CaseFold(m[0]) == CaseFold(w[0]) && m[0] == ctx[i];
    assert CaseFold(m[|w| - 1]) == CaseFold(w[|w| - 1]) && m[|w| - 1] == ctx[i + |w| - 1];
    FoldedLetterFixed(w[0]);
    FoldedLetterFixed(w[|w| - 1]);
  }

  /** A month word of the text that lies inside a window of it is found in the window too. */
  lemma MonthWordInWindow(u: CharTable, text: string, i: nat, m: nat, lo: nat, hi: nat)
    requires Valid(u) && FoldsOntoLetters(u)
    requires m < |MonthWords|
    requires MonthWordAt(u, text, i, MonthWords[m])
    requires lo <= i && i + |MonthWords[m]| <= hi <= |text|
    ensures HasMonthWord(u, text[lo..hi])
  {
    MonthWordsAreLetters(MonthWords[m]);
    WordInSlice(u, text, i, MonthWords[m], lo, hi);
    HasMonthWordIff(u, text[lo..hi]);
  }

  /** The match of a letter-bounded word survives cutting the text around it. */
  lemma WordInSlice(u: CharTable, text: string, i: nat, w: string, lo: nat, hi: nat)
    requires Valid(u) && FoldsOntoLetters(u)
    requires LetterBounded(w)
    requires MonthWordAt(u, text, i, w)
    requires lo <= i && i + |w| <= hi <= |text|
    ensures MonthWordAt(u, text[lo..hi], i - lo, w)
  {
    WholeWord(u, text, i, w);
    var ctx := text[lo..hi];
    var j := i - lo;
    SliceOfSlice(text, lo, hi, i, i + |w|);
    StartInSlice(u, text, i, lo, hi);
    EndInSlice(u, text, i + |w|, lo, hi);
  }

  /** Cutting `[lo, hi)` out of the text keeps every piece of it in place. */
  lemma SliceOfSlice(text: string, lo: nat, hi: nat, i: nat, k: nat)
    requires lo <= i <= k <= hi <= |text|
    ensures text[lo..hi][i - lo..k - lo] == text[i..k]
  {
    forall m | 0 <= m < k - i
      ensures text[lo..hi][i - lo..k - lo][m] == text[i..k][m]
    {
      assert text[lo..hi][i - lo + m] == text[i + m];
    }
  }

  /** A word character with no word character before it still starts a word once the text is cut. */
  lemma StartInSlice(u: CharTable, text: string, i: nat, lo: nat, hi: nat)
    requires lo <= i < hi <= |text|
    requires text[i] in u.word && (i == 0 || text[i - 1] !in u.word)
    ensures IsWordBoundary(u, text[lo..hi], i - lo)
  {
    assert text[lo..hi][i - lo] == text[i];
    assert i > lo ==> text[lo..hi][i - lo - 1] == text[i - 1];
  }

  /** A word character with no word character after it still ends a word once the text is cut. */
  lemma EndInSlice(u: CharTable, text: string, k: nat, lo: nat, hi: nat)
    requires lo < k <= hi <= |text|
    requires text[k - 1] in u.word && (k == |text| || text[k] !in u.word)
    ensures IsWordBoundary(u, text[lo..hi], k - lo)
  {
    assert text[lo..hi][k - lo - 1] == text[k - 1];
    assert k < hi ==> text[lo..hi][k - lo] == text[k];
  }

  // ---- `_find_dates_any_language` ----

  /** A half-open range `[start, end)` of the text. */
  datatype Span = Span(start: nat, end: nat)

  /** The three lists the filter builds and its cursor. */
  datatype DateScan = DateScan(raws: seq<string>, spans: seq<Span>, isos: seq<string>, cursor: nat)

  /** `text_norm[left:right]`: fifteen characters of context on either side, clipped to the text. */
  function Window(text: string, start: nat, end: nat): (ctx: string)
    requires start <= end <= |text|
    ensures |ctx| <= |text|
  {
    var left := if start >= 15 then start - 15 else 0;
    var right := if end + 15 <= |text| then end + 15 else |text|;
    text[left..right]
  }

  /** The window is the span with fifteen characters on each side, fewer only where the text ends first. */
  lemma WindowSlice(text: string, start: nat, end: nat) returns (lo: nat, hi: nat)
    requires start <= end <= |text|
    ensures lo <= start && end <= hi <= |text|
    ensures Window(text, start, end) == text[lo..hi]
    ensures start - lo == 15 || (lo == 0 && start < 15)
    ensures hi - end == 15 || (hi == |text| && |text| - end < 15)
  {
    lo := if start >= 15 then start - 15 else 0;
    hi := if end + 15 <= |text| then end + 15 else |text|;
  }

  /** Where a candidate is placed: the first occurrence from the cursor, else the first anywhere. */
  function Locate(text: string, raw: string, cursor: nat): (r: Option<nat>)
    ensures r.Some? ==> OccursAt(text, raw, r.value)
    ensures r.None? ==> forall i: nat :: !OccursAt(text, raw, i)
    ensures r.Some? && cursor <= r.value ==> forall i: nat :: cursor <= i < r.value ==> !OccursAt(text, raw, i)
    ensures r.Some? && r.value < cursor ==>
      (forall i: nat :: cursor <= i ==> !OccursAt(text, raw, i)) && forall i: nat :: i < r.value ==> !OccursAt(text, raw, i)
  {
    FindFirst(text, raw, cursor);
    FindFirst(text, raw, 0);
    match Find(text, raw, cursor)
    case Some(k) => Some(k)
    case None => Find(text, raw, 0)
  }

  /** The span lies inside one of `spans` (the de-duplication test). */
  predicate Nested(spans: seq<Span>, sp: Span) {
    exists k | 0 <= k < |spans| :: spans[k].start <= sp.start && sp.end <= spans[k].end
  }

  /** One turn of the loop over the parser's results. */
  function Step(u: CharTable, text: string, st: DateScan, c: Candidate): DateScan {
    if '%' in c.raw then st else Place(u, text, st, c, Locate(text, c.raw, st.cursor))
  }

  /**
   * The filter's test of a candidate placed at `start`: a month word within
   * fifteen characters of its span, or the shape of a numeric date.
   */
  predicate Plausible(u: CharTable, text: string, raw: string, start: nat)
    requires start + |raw| <= |text|
  {
    HasMonthWord(u, Window(text, start, start + |raw|)) || LooksLikeNumericDate(u, raw)
  }

  /** Some month word matches in `ctx` between two `\b` positions. */
  ghost predicate MonthWordWithin(u: CharTable, ctx: string) {
    exists j, m :: 0 <= j <= |ctx| && 0 <= m < |MonthWords| && MonthWordAt(u, ctx, j, MonthWords[m])
  }

  /**
   * The filter's test in terms of what it looks for: a month word matched
   * between two `\b` positions in the window, or, under a valid table, one of
   * the two numeric date shapes of the stripped text.
   */
  lemma PlausibleShapes(u: CharTable, text: string, raw: string, start: nat)
    requires start + |raw| <= |text|
    ensures Plausible(u, text, raw, start) <==>
      MonthWordWithin(u, Window(text, start, start + |raw|)) || LooksLikeNumericDate(u, raw)
    ensures Valid(u) ==> (Plausible(u, text, raw, start) <==>
      MonthWordWithin(u, Window(text, start, start + |raw|)) || NumericDateShape(u, Strip(raw)))
  {
    HasMonthWordIff(u, Window(text, start, start + |raw|));
    if Valid(u) {
      NumericDateIff(u, raw);
    }
  }

  /** The turn once the candidate has been searched for; `None` is a candidate not found. */
  function Place(u: CharTable, text: string, st: DateScan, c: Candidate, at: Option<nat>): DateScan
    requires at.Some? ==> at.value + |c.raw| <= |text|
  {
    match at
    case None => st
    case Some(start) => Admit(st, c, start, start + |c.raw|, Plausible(u, text, c.raw, start))
  }

  /**
   * A candidate found at `start` is kept exactly when it is plausible, has a
   * date and lies inside no kept span; keeping it appends its raw text, its
   * span and its ISO string, and moves the cursor to the span's end.
   */
  lemma PlaceSome(u: CharTable, text: string, st: DateScan, c: Candidate, start: nat)
    requires start + |c.raw| <= |text|
    ensures Place(u, text, st, c, Some(start)) != st <==>
      Plausible(u, text, c.raw, start) && c.date.Some? && !Nested(st.spans, Span(start, start + |c.raw|))
    ensures Place(u, text, st, c, Some(start)) != st ==>
      Place(u, text, st, c, Some(start)) ==
        DateScan(st.raws + [c.raw], st.spans + [Span(start, start + |c.raw|)], st.isos + [ToIso(c.date.value)], start + |c.raw|)
  {
    var st' := Place(u, text, st, c, Some(start));
    if Plausible(u, text, c.raw, start) && c.date.Some? && !Nested(st.spans, Span(start, start + |c.raw|)) {
      assert |st'.raws| == |st.raws| + 1;
    }
  }

  /**
   * The rest of the turn, once the candidate is placed at `[start, end)`;
   * `plausible` says whether a month word is near or the text is a numeric date.
   */
  function Admit(st: DateScan, c: Candidate, start: nat, end: nat, plausible: bool): DateScan {
    if !plausible then st
    else if c.date.None? then st
    else if Nested(st.spans, Span(start, end)) then st
    else DateScan(st.raws + [c.raw], st.spans + [Span(start, end)], st.isos + [ToIso(c.date.value)], end)
  }

  /** The loop over the parser's results, as a left fold. */
  function ScanDates(u: CharTable, text: string, results: seq<Candidate>): DateScan {
    if results == [] then DateScan([], [], [], 0)
    else Step(u, text, ScanDates(u, text, results[..|results| - 1]), results[|results| - 1])
  }

  /**
   * What the filter guarantees of what it keeps: the three lists line up,
   * each raw text is the text of its span, holds no `%`, has a month word
   * near it or a numeric date shape, no span lies inside an earlier one,
   * every ISO string is `YYYY-MM-DD`, and the cursor is the end of the last
   * kept span.
   */
  ghost predicate ScanOk(u: CharTable, text: string, st: DateScan) {
    && |st.raws| == |st.spans| == |st.isos|
    && (forall k :: 0 <= k < |st.spans| ==>
         st.spans[k].start <= st.spans[k].end <= |text|
         && st.raws[k] == text[st.spans[k].start..st.spans[k].end])
    && (forall k :: 0 <= k < |st.raws| ==> '%' !in st.raws[k])
    && (forall k :: 0 <= k < |st.spans| ==>
         HasMonthWord(u, Window(text, st.spans[k].start, st.spans[k].end)) || LooksLikeNumericDate(u, st.raws[k]))
    && (forall k :: 0 <= k < |st.isos| ==> IsIsoForm(st.isos[k]))
    && (forall j, k :: 0 <= j < k < |st.spans| ==>
         !(st.spans[j].start <= st.spans[k].start && st.spans[k].end <= st.spans[j].end))
    && st.cursor == (if st.spans == [] then 0 else st.spans[|st.spans| - 1].end)
  }

  /** Each step keeps what the filter guarantees. */
  lemma StepOk(u: CharTable, text: string, st: DateScan, c: Candidate)
    requires ScanOk(u, text, st)
    ensures ScanOk(u, text, Step(u, text, st, c))
  {
    if Step(u, text, st, c) != st {
      var start := Locate(text, c.raw, st.cursor).value;
      AppendOk(u, text, st, c.raw, Span(start, start + |c.raw|), ToIso(c.date.value));
    }
  }

  /** Appending an entry that passed every test keeps the guarantees. */
  lemma AppendOk(u: CharTable, text: string, st: DateScan, raw: string, sp: Span, iso: string)
    requires ScanOk(u, text, st)
    requires sp.start <= sp.end <= |text| && raw == text[sp.start..sp.end]
    requires '%' !in raw
    requires HasMonthWord(u, Window(text, sp.start, sp.end)) || LooksLikeNumericDate(u, raw)
    requires IsIsoForm(iso)
    requires !Nested(st.spans, sp)
    ensures ScanOk(u, text, DateScan(st.raws + [raw], st.spans + [sp], st.isos + [iso], sp.end))
  {
    var spans := st.spans + [sp];
    forall j, k | 0 <= j < k < |spans|
      ensures !(spans[j].start <= spans[k].start && spans[k].end <= spans[j].end)
    {
      if k == |st.spans| {
        assert spans[j] == st.spans[j];
      }
    }
  }

  /** The filter's guarantees hold of its result, whatever the parser returns. */
  lemma {:induction false} ScanDatesOk(u: CharTable, text: string, results: seq<Candidate>)
    ensures ScanOk(u, text, ScanDates(u, text, results))
  {
    if results != [] {
      ScanDatesOk(u, text, results[..|results| - 1]);
      StepOk(u, text, ScanDates(u, text, results[..|results| - 1]), results[|results| - 1]);
    }
  }

  /**
   * The cursor does not always move forward: a candidate found only before
   * the cursor, by the search from the start of the text, and kept, moves
   * the cursor back to the end of its span.
   */
  lemma CursorCanMoveBack(u: CharTable, text: string, st: DateScan, c: Candidate, k: nat)
    requires '%' !in c.raw && c.date.Some?
    requires Find(text, c.raw, st.cursor).None? && Find(text, c.raw, 0) == Some(k)
    requires k + |c.raw| < st.cursor
    requires LooksLikeNumericDate(u, c.raw)
    requires !Nested(st.spans, Span(k, k + |c.raw|))
    ensures Step(u, text, st, c).cursor < st.cursor
  {
    assert Locate(text, c.raw, st.cursor) == Some(k);
    assert k + |c.raw| <= |text|;
    PlaceSome(u, text, st, c, k);
    assert Plausible(u, text, c.raw, k);
  }

  /** A step leaves the state alone or appends one entry and moves the cursor to its end. */
  lemma StepCursor(u: CharTable, text: string, st: DateScan, c: Candidate)
    ensures var st' := Step(u, text, st, c);
      st' == st || (|st'.spans| == |st.spans| + 1 && st'.cursor == st'.spans[|st.spans|].end)
    ensures var st' := Step(u, text, st, c);
      st' != st && Find(text, c.raw, st.cursor).Some? ==> st'.cursor >= st.cursor + |c.raw|
  {
  }

  /** The inner `for s, e in spans` loop: is `sp` inside one of `spans`? */
  method IsNested(spans: seq<Span>, sp: Span) returns (overlapped: bool)
    ensures overlapped == Nested(spans, sp)
  {
    overlapped := false;
    var k := 0;
    while k < |spans|
      invariant 0 <= k <= |spans|
      invariant !overlapped
      invariant forall j :: 0 <= j < k ==> !(spans[j].start <= sp.start && sp.end <= spans[j].end)
    {
      if sp.start >= spans[k].start && sp.end <= spans[k].end {
        overlapped := true;
        return;
      }
      k := k + 1;
    }
  }

  /**
   * One pass of the loop body of `_find_dates_any_language` over `item`,
   * with the three lists and the cursor as they stand.
   */
  method Turn(u: CharTable, textNorm: string, rawDates: seq<string>, spans: seq<Span>, isoDates: seq<string>,
              cursor: nat, item: Candidate)
    returns (rawDates': seq<string>, spans': seq<Span>, isoDates': seq<string>, cursor': nat)
    ensures DateScan(rawDates', spans', isoDates', cursor') ==
      Step(u, textNorm, DateScan(rawDates, spans, isoDates, cursor), item)
  {
    ghost var st := DateScan(rawDates, spans, isoDates, cursor);
    rawDates', spans', isoDates', cursor' := rawDates, spans, isoDates, cursor;
    var raw := item.raw;
    if '%' in raw {
      return;
    }
    var found := Search(textNorm, raw, cursor);
    if found.None? {
      return;
    }
    var start := found.value;
    rawDates', spans', isoDates', cursor' := AdmitAt(u, textNorm, rawDates, spans, isoDates, cursor, item, start);
  }

  /** `text_norm.find(raw, cursor)`, then `text_norm.find(raw)` when that fails; `None` for -1. */
  method Search(textNorm: string, raw: string, cursor: nat) returns (found: Option<nat>)
    ensures found == Locate(textNorm, raw, cursor)
  {
    found := Find(textNorm, raw, cursor);
    if found.None? {
      found := Find(textNorm, raw, 0);
    }
  }

  /** The rest of the loop body, once the candidate has been found at `start`. */
  method AdmitAt(u: CharTable, textNorm: string, rawDates: seq<string>, spans: seq<Span>, isoDates: seq<string>,
                 cursor: nat, item: Candidate, start: nat)
    returns (rawDates': seq<string>, spans': seq<Span>, isoDates': seq<string>, cursor': nat)
    requires start + |item.raw| <= |textNorm|
    ensures DateScan(rawDates', spans', isoDates', cursor') ==
      Admit(DateScan(rawDates, spans, isoDates, cursor), item, start, start + |item.raw|, Plausible(u, textNorm, item.raw, start))
  {
    ghost var st := DateScan(rawDates, spans, isoDates, cursor);
    rawDates', spans', isoDates', cursor' := rawDates, spans, isoDates, cursor;
    var raw := item.raw;
    var end := start + |raw|;
    var monthNear := HasMonthWord(u, Window(textNorm, start, end));
    var numericOk := LooksLikeNumericDate(u, raw);
    ghost var plausible := Plausible(u, textNorm, raw, start);
    assert plausible == (monthNear || numericOk);
    if !(monthNear || numericOk) {
      assert Admit(st, item, start, end, plausible) == st;
      return;
    }
    rawDates', spans', isoDates', cursor' := AdmitPlausible(rawDates, spans, isoDates, cursor, item, start, end);
    assert Admit(st, item, start, end, plausible) == Admit(st, item, start, end, true);
  }

  /** The end of the loop body for a plausible candidate: it needs a date and must lie inside no kept span. */
  method AdmitPlausible(rawDates: seq<string>, spans: seq<Span>, isoDates: seq<string>, cursor: nat,
                        item: Candidate, start: nat, end: nat)
    returns (rawDates': seq<string>, spans': seq<Span>, isoDates': seq<string>, cursor': nat)
    ensures DateScan(rawDates', spans', isoDates', cursor') ==
      Admit(DateScan(rawDates, spans, isoDates, cursor), item, start, end, true)
  {
    rawDates', spans', isoDates', cursor' := rawDates, spans, isoDates, cursor;
    if item.date.None? {
      return;
    }
    var iso := ToIso(item.date.value);
    var overlapped := IsNested(spans, Span(start, end));
    if overlapped {
      return;
    }
    rawDates' := rawDates + [item.raw];
    spans' := spans + [Span(start, end)];
    isoDates' := isoDates + [iso];
    cursor' := end;
  }

  /**
   * `_find_dates_any_language(text_norm)`, given what `search_dates`
   * returned for it (an empty sequence when it returned nothing or raised).
   */
  method FindDatesAnyLanguage(u: CharTable, textNorm: string, results: seq<Candidate>)
    returns (rawDates: seq<string>, spans: seq<Span>, isoDates: seq<string>)
    ensures var st := ScanDates(u, textNorm, results);
      rawDates == st.raws && spans == st.spans && isoDates == st.isos
    ensures |rawDates| == |spans| == |isoDates|
    ensures forall k :: 0 <= k < |spans| ==>
      spans[k].start <= spans[k].end <= |textNorm| && rawDates[k] == textNorm[spans[k].start..spans[k].end]
    ensures forall k :: 0 <= k < |isoDates| ==> IsIsoForm(isoDates[k])
  {
    rawDates, spans, isoDates := [], [], [];
    if results == [] {
      return;
    }
    var cursor: nat := 0;
    for j := 0 to |results|
      invariant DateScan(rawDates, spans, isoDates, cursor) == ScanDates(u, textNorm, results[..j])
    {
      assert results[..j + 1][..j] == results[..j];
      rawDates, spans, isoDates, cursor := Turn(u, textNorm, rawDates, spans, isoDates, cursor, results[j]);
    }
    assert results[..|results|] == results;
    ScanDatesOk(u, textNorm, results);
  }
}
