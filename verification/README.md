# Segment-comparison engine, modelled in Dafny

This project models the deterministic comparison engine of a translation
checker. The engine takes a source document and its translation as plain
text. It splits each into sentences and pairs the sentences by position.
For each pair it runs a fixed list of detectors:

- numbers that differ;
- dates that differ;
- a target that looks untranslated;
- a length ratio outside `[0.5, 2]`;
- doubled whitespace in the target;
- doubled punctuation in the target;
- names in the source that look misspelt in the target.

Each detector raises an issue with a severity. The engine then counts the
issues by severity.

The model has one module per concern:

- `Text`: the pieces of Python's string library the engine uses, and the
  Unicode character classes. These are `str.strip`, `str.find`, `in` on
  strings, `str.join`, regex `\s`, and case folding.
- `Digits`: `normalize_digits`.
- `Amounts`: `_normalize_amount`.
- `Dates`:
  - ISO formatting;
  - `_looks_like_numeric_date`;
  - `_has_month_word`;
  - `_find_dates_any_language`.
- `Numbers`: the `NUM_RE` scanner and `extract_numbers_dates`.
- `Names`: `_extract_name_spans` and `name_typos`.
- `Align`: `split_sentences` and `simple_align`.
- `Checks`: `run_checks`.

Code that works by loops becomes a `method` proved equal to a specification
function. These are `normalize_digits`, the candidate loop of
`_find_dates_any_language`, `_extract_name_spans`, `name_typos`,
`run_checks` and the padding in `simple_align`. The properties are proved
about those functions.

Regular expressions are written out as scanners. Each scanner keeps the
regex engine's order of preference (greedy quantifiers, alternatives tried
left to right, the first match at the leftmost position), so a scanner
returns the match the regex returns.

Library calls become parameters:

- The Unicode database is a `CharTable`. It holds the `Nd` digits with
  their values, upper- and lower-case letters, letters and word characters.
  Case folding is a fixed function, `CaseFold`. `Valid` states the few facts about it that the
  proofs use. For example, the ASCII digits are `Nd`, and no separator,
  sign or white-space character is.
- `dateparser.search_dates` is a function from the text to the candidates
  it would return, as `(raw, Option<date>)` pairs. An exception and `None`
  both become the empty sequence.
- `fuzz.ratio` and `fuzz.partial_ratio` are functions into the real
  scores between `0.0` and `100.0`.

## Specification functions

Some functions only compute the value a piece of the source returns. They
carry no contract of their own. The lemmas and methods named after each
one state its properties, and those members have rows in the table below.

- `Text.IsSpace`, `Text.IsStripSpace` (services/checks.py:8, services/align.py:4-9):
  regex `\s` and `str.isspace`. Specified through `Text.TrimLeft`,
  `Text.TrimRight`, `Text.Strip` and `Align.SeparatorsAreSpace`.
- `Text.CaseFold` (services/checks.py:13-19): the case folding of `re.I`.
  Specified by `Text.FoldedLetterFixed`.
- `Text.Contains` (services/checks.py:178): `sn in tgt`. It appears in the
  contracts of `Names.TyposSound` and `Names.NameTypos`.
- `Text.Join` (services/checks.py:170): `" ".join`. Specified by
  `Names.CleanRuns` and `Names.NameCandidatesAreRuns`.
- `Digits.DigitsNormalized` (services/checks.py:21-33): `normalize_digits`.
  Specified by `Digits.NormalizeDigits`, `Digits.DigitsNormalizedConcat`,
  `Digits.NormalizedDigitsAreAscii` and `Digits.NormalizeDigitsIdempotent`.
- `Amounts.StripCurrency` (services/checks.py:37): the currency `re.sub`.
  Specified by `Amounts.KeepStripCurrency`.
- `Amounts.Canonical` (services/checks.py:39-48): the rightmost-separator
  split. Specified by `Amounts.CanonicalShape` and `Amounts.CanonicalFixed`.
- `Dates.LooksLikeNumericDate` (services/checks.py:50-58). Specified by
  `Dates.NumericDateIff`.
- `Dates.HasMonthWord` (services/checks.py:60-61). Specified by
  `Dates.HasMonthWordIff`.
- `Dates.Plausible` (services/checks.py:105-115). Specified by
  `Dates.PlausibleShapes`.
- `Dates.Step`, `Dates.Place`, `Dates.Admit` (services/checks.py:91-133):
  one turn of the filtering loop. Specified by `Dates.StepOk`,
  `Dates.PlaceSome` and `Dates.StepCursor`. `Dates.Turn`, `Dates.AdmitAt`
  and `Dates.AdmitPlausible` prove the loop body equal to them.
- `Dates.ScanDates` (services/checks.py:90-135): the loop. Specified by
  `Dates.ScanDatesOk`; `Dates.FindDatesAnyLanguage` is proved equal to it.
- `Numbers.InDateSpan` (services/checks.py:141-145). It appears in the
  contracts of `Numbers.OutsideDates`, `Numbers.KeptNumerals` and
  `Numbers.NumbersAvoidDates`.
- `Numbers.ExtractNumbersDates` (services/checks.py:137-149):
  `extract_numbers_dates`. Specified by `Numbers.ExtractedShape`,
  `Numbers.NumbersAvoidDates`, `Numbers.DatesAreFilterOutput` and
  `Numbers.NothingDroppedAsEmpty`.
- `Names.GroupTokens`, `Names.TitleRuns` (services/checks.py:155-164).
  Specified by `Names.GroupTokensOk`, `Names.TitleRunsAreRuns` and
  `Names.TitleRunsComplete`.
- `Names.CleanGroups` (services/checks.py:166-171). Specified by
  `Names.CleanRuns`.
- `Names.NameCandidates` (services/checks.py:151-171): `_extract_name_spans`.
  Specified by `Names.NameCandidatesAreRuns`; `Names.ExtractNameSpans` is
  proved equal to it.
- `Names.TyposOf` (services/checks.py:173-187): `name_typos`. Specified by
  `Names.TyposSound`; `Names.NameTypos` is proved equal to it.
- `Align.SplitSentences` (services/align.py:6-10): `split_sentences`.
  Specified by `Align.SplitSentencesEmpty`, `Align.SplitSentencesAreSentences`
  and `Align.SplitSentencesRejoin`.
- `Checks.Detectors`, `Checks.Segment` (services/checks.py:192-218): the
  detectors of one segment pair. Specified by `Checks.DetectorsFire`,
  `Checks.SegmentTriggers` and `Checks.SegmentInOrder`; `Checks.RunDetectors`
  and `Checks.Detect` are proved equal to them.
- `Checks.AllIssues` (services/checks.py:190-218): the issues of
  `run_checks`. Specified by `Checks.AllIssuesBySegment` and
  `Checks.AllIssuesInOrder`; `Checks.RunChecks` is proved equal to it.

## Model

| member | source | states |
|---|---|---|
| Text.TrimLeft | services/checks.py:51 | the result is a suffix of the input; everything removed is `str.isspace` white space; the result does not start with white space |
| Text.TrimRight | services/checks.py:51 | the result is a prefix of the input; everything removed is white space; the result does not end with white space |
| Text.Strip | services/checks.py:51 | `str.strip`: the result neither starts nor ends with white space |
| Text.StripSlice | services/align.py:9 | `strip` returns a slice `s[lo..lo+n]` of its input, and every character outside the slice is white space |
| Text.StripUnchanged | services/align.py:9 | a string that does not start or end with white space is its own `strip` |
| Text.Find | services/checks.py:99 | `str.find(raw, start)` returns only a position at or after `start` where `raw` occurs |
| Text.FindFirst | services/checks.py:99-103 | `str.find` returns the first occurrence at or after `start`; `-1` means `raw` occurs nowhere from `start` |
| Text.FoldedLetterFixed | services/checks.py:13-19 | case folding leaves a lower-case ASCII or accented month-word letter unchanged |
| Digits.AsciiDigit | services/checks.py:28 | `str(unicodedata.digit(ch))` is the ASCII digit whose value is the digit's value |
| Digits.NormalizeDigits | services/checks.py:21-33 | the loop keeps the length, leaves every non-`Nd` character unchanged and puts the ASCII digit of the same value in place of each `Nd` character (empty input gives `""`) |
| Digits.DigitsNormalizedConcat | services/checks.py:25-33 | normalization works character by character, so it distributes over concatenation |
| Digits.NormalizedDigitsAreAscii | services/checks.py:27-28 | after normalization every `Nd` character left is an ASCII digit |
| Digits.NormalizeDigitsIdempotent | services/checks.py:21-33 | normalizing twice gives the same text as normalizing once |
| Amounts.SkipSpaces | services/checks.py:37 | the `\s*` after a currency marker is greedy: what is skipped is a prefix of `\s` characters, and what is left does not start with one |
| Amounts.ReplaceNbsp | services/checks.py:36 | keeps the length; each NBSP becomes a space and every other character is unchanged |
| Amounts.KeepAmountChars | services/checks.py:38 | `[^0-9.,]` removal leaves only ASCII digits, `.` and `,` |
| Amounts.RemoveSeparators | services/checks.py:45-47 | on digits and separators, removing `[.,\s]` leaves only ASCII digits |
| Amounts.LastSeparatorBefore | services/checks.py:41-43 | finds the rightmost `,` or `.` before a position, or reports that there is none |
| Amounts.LastSeparator | services/checks.py:41-44 | `max(rfind(','), rfind('.'))`: the rightmost separator, or `-1` when there is none |
| Amounts.NormalizeAmount | services/checks.py:35-48 | the result holds only ASCII digits and at most one `.` |
| Amounts.CanonicalShape | services/checks.py:39-48 | the integer-only and decimal branches both give digits with at most one `.` |
| Amounts.AmountOfNormalizedChars | services/checks.py:36-38 | the amount depends only on the digits and separators left after digit normalization; the currency and NBSP steps remove nothing that matters |
| Amounts.KeepStripCurrency | services/checks.py:37 | removing a currency code or symbol and its spaces never removes a digit or a separator |
| Amounts.KeepReplaceNbsp | services/checks.py:36 | replacing NBSP never changes the kept digits and separators |
| Amounts.KeepDropsStrip | services/checks.py:36 | `strip` before normalization never changes the kept digits and separators |
| Amounts.AmountIgnoresNoise | services/checks.py:35-48 | inserting characters that are neither `Nd` digits nor digits/separators does not change the amount |
| Amounts.AmountIgnoresSign | services/checks.py:35-48 | a leading `+` or `-` is dropped: `"-5"` and `"5"` give the same amount |
| Amounts.AmountCharsUntouched | services/checks.py:36-38 | a string made only of ASCII digits and separators survives the first steps unchanged |
| Amounts.NormalizeAmountIdempotent | services/checks.py:35-48 | applying `_normalize_amount` to its own output gives that output back |
| Amounts.AmountEmptyIff | services/checks.py:39-40 | the result is `""` exactly when no digit or separator is left after normalization |
| Amounts.AmountOfPlainNumeral | services/checks.py:35-48 | for a string of digits and separators, the amount is the rightmost-separator split of that string |
| Amounts.RightmostSeparatorIsDecimal | services/checks.py:41-48 | when only digits follow a separator, that separator becomes the `.` and all earlier separators go: `"1,250.50"` and `"1.250,50"` give `"1250.50"` |
| Amounts.LoneSeparatorIsDecimal | services/checks.py:41-48 | a single separator is always decimal: `"1,250"` gives `"1.250"` |
| Amounts.GroupingSeparatorIgnored | services/checks.py:41-48 | with two separators, the first is removed and the second becomes the decimal point |
| Amounts.CanonicalFixed | services/checks.py:41-48 | a string of digits with at most one `.` is its own canonical form |
| Dates.ZeroPadded | services/checks.py:86 | `{n:0wd}` for `n < 10^w` gives `w` ASCII digits whose value is `n` |
| Dates.ZeroPaddedOfValue | services/checks.py:86 | zero-padding a digit string's own value to its own width gives the string back |
| Dates.ToIso | services/checks.py:84-88 | `to_iso` always gives a `YYYY-MM-DD` string |
| Dates.ParseIso | services/checks.py:84-88 | the inverse of `to_iso` accepts only `YYYY-MM-DD` strings |
| Dates.IsoRoundTrip | services/checks.py:84-88 | parsing the ISO string of a date gives the date back |
| Dates.IsoParseRoundTrip | services/checks.py:84-88 | formatting a parsed ISO string gives the string back |
| Dates.ToIsoInjective | services/checks.py:84-88 | different dates have different ISO strings, so a set of ISO strings compares dates |
| Dates.DigitRun | services/checks.py:53-56 | `\d+` from a position: all characters in the run are `Nd`, and the next is not |
| Dates.MatchDayFirstIff | services/checks.py:53 | the first pattern holds exactly for 1-2 digits, a separator `s` in `/-.`, 1-2 digits, the same `s`, and 4 digits |
| Dates.MatchYearFirstIff | services/checks.py:56 | the second pattern holds exactly for 4 digits, `s` in `-.`, 1-2 digits, the same `s`, and 1-2 digits |
| Dates.NumericDateIff | services/checks.py:50-58 | `_looks_like_numeric_date(raw)` holds exactly when `raw.strip()` has one of the two shapes |
| Dates.NumericDateLength | services/checks.py:50-58 | an accepted numeric date is 8 to 10 characters long after `strip` |
| Dates.IsoIsNumericDate | services/checks.py:50-58 | every ISO string that `to_iso` produces is itself accepted as a numeric date |
| Dates.SlashAfterYearRejected | services/checks.py:56 | a year followed by `/` never matches: `yyyy/mm/dd` is not a numeric date |
| Dates.HasMonthWordIff | services/checks.py:13-19 | `_has_month_word` holds exactly when some listed month word occurs, case-insensitively, between two `\b` positions |
| Dates.WordAmongIff | services/checks.py:13-19 | the alternation tries the month words in order and succeeds exactly when one of them matches at the position |
| Dates.WordFromIff | services/checks.py:60-61 | `search` succeeds from a position exactly when some month word matches at or after it |
| Dates.MonthWordsAreLetters | services/checks.py:13-19 | every month word begins and ends with a letter, so `\b` around it is a letter/non-letter boundary |
| Dates.WholeWord | services/checks.py:13-19 | a matched month word is a whole word of its context: the characters just outside it are not word characters |
| Dates.MonthWordInWindow | services/checks.py:106-108 | a month word that lies inside the ±15 window is found by the search on that window |
| Dates.WordInSlice | services/checks.py:106-108 | a whole month word keeps its `\b` boundaries when the context is cut around it |
| Dates.Window | services/checks.py:106-108 | the context is never longer than the text |
| Dates.WindowSlice | services/checks.py:106-108 | the context is the slice `text[lo:hi]` with exactly 15 characters before `start` and after `end`, or fewer where the text ends first |
| Dates.Locate | services/checks.py:99-103 | returns a position where the raw text occurs, or none when it occurs nowhere; a position at or after the cursor is the first such one; a position before the cursor means the raw text does not occur from the cursor on, and it is the first occurrence in the text |
| Dates.Search | services/checks.py:99-103 | the two `find` calls of the loop body compute `Locate` |
| Dates.PlaceSome | services/checks.py:104-133 | once a candidate is located, the state changes exactly when the candidate is plausible, has a date and is not nested in an earlier span; then its raw text, span and ISO date are appended and the cursor moves to its end |
| Dates.PlausibleShapes | services/checks.py:106-114 | the plausibility test holds exactly when some month word lies whole inside the ±15 window or the stripped raw text has one of the numeric date shapes |
| Dates.StepOk | services/checks.py:91-133 | one iteration of the candidate loop keeps every guarantee of the filter |
| Dates.AppendOk | services/checks.py:130-133 | appending an accepted candidate to the three lists and moving the cursor to its end keeps the guarantees |
| Dates.ScanDatesOk | services/checks.py:90-135 | after the whole loop: the three lists have equal length; each raw is `text_norm[start:end]` of its span and holds no `%`; each has a month word in its ±15 window or a numeric date shape; no span lies inside an earlier one; every ISO string is `YYYY-MM-DD`; the cursor is the end of the last span |
| Dates.StepCursor | services/checks.py:99-133 | a step leaves the state alone or appends one span and moves the cursor to its end; when the raw text was found from the cursor, the cursor only moves forward |
| Dates.CursorCanMoveBack | services/checks.py:99-133 | when the raw text is found only by the fallback search from 0, the cursor moves back |
| Dates.IsNested | services/checks.py:122-128 | the inner loop reports exactly whether the new span lies inside an earlier one |
| Dates.Turn | services/checks.py:91-133 | one iteration of the loop body, proved equal to one step of the specification |
| Dates.AdmitAt | services/checks.py:104-133 | the body after a candidate is located: the month-word and numeric tests, then the rest, leave the state the specification's `Admit` gives |
| Dates.AdmitPlausible | services/checks.py:117-133 | for a plausible candidate: skipped without a date or when nested, otherwise appended with the cursor at its end |
| Dates.FindDatesAnyLanguage | services/checks.py:63-135 | the method returns the specification's three lists: equal lengths, each raw the text of its span, and ISO-form dates |
| Numbers.Countdown | services/checks.py:7 | the descending list of candidate lengths a greedy quantifier tries |
| Numbers.FractionEnds | services/checks.py:7 | `(?:[.,]\d+)?` from a position: exactly the ends where a fraction (`.` or `,` and one or more digits) or nothing ends, strictly decreasing, so the longest fraction is tried first and no fraction last |
| Numbers.DigitsWithinRun | services/checks.py:7 | a stretch of digits from a position never reaches past the greedy `\d+` run there |
| Numbers.GroupCount | services/checks.py:7 | greedy `(?:[.,\s ]\d{3})*`: that many groups follow the position, one more does not, and no run of groups there is longer |
| Numbers.GroupEnds | services/checks.py:7 | groups then fraction from a position, with at most `g` groups: every such end is listed, and when the `g` groups are present each listed end is one |
| Numbers.LeadEnds | services/checks.py:7 | the first alternative `\d{1,3}(?:[.,\s ]\d{3})*(?:[.,]\d+)?` with a lead of at most `lead` digits: every such end is listed, and each listed end is one when the lead digits are present |
| Numbers.RunEnds | services/checks.py:7 | the second alternative `\d+(?:[.,]\d+)?` with at most `n` digits: every such end is listed, and each listed end is one when the digits are present |
| Numbers.NumeralEnds | services/checks.py:7 | exactly the ends where either alternative of the unsigned part can end; none unless the position holds a digit |
| Numbers.NumeralEndsExact | services/checks.py:7 | the leads of up to three digits and the whole-run forms together reach exactly the unsigned numeral shapes |
| Numbers.FirstBoundary | services/checks.py:7 | the first end in preference order that `(?!\w)` accepts, or none |
| Numbers.MatchEnd | services/checks.py:7 | a match found is a `NUM_RE` match whose text has the numeral shape: optional sign, then either alternative; there is none exactly when a word character precedes the position or every numeral shape there is followed by a word character |
| Numbers.SignedFirst | services/checks.py:7 | after a sign, the end found first with the sign, else without it, is a `NUM_RE` match; there is none exactly when every numeral shape there is followed by a word character |
| Numbers.UnsignedFirst | services/checks.py:7 | without a sign, the first end the look-ahead accepts is a `NUM_RE` match; there is none exactly when every numeral shape there is followed by a word character |
| Numbers.FirstNumeralEnd | services/checks.py:7 | the first unsigned end `(?!\w)` accepts from a position has the unsigned shape and starts at a digit; there is none exactly when no unsigned shape there passes the look-ahead |
| Numbers.Matches | services/checks.py:147 | `finditer`: each match is the one `MatchEnd` finds at its start, matches come in order, and no match starts before the first, between two of them or after the last |
| Numbers.MatchesCons | services/checks.py:147 | after a match, the search resumes at its end |
| Numbers.MatchesSkip | services/checks.py:147 | where no match starts, the search moves on by one position |
| Numbers.MatchesInOrder | services/checks.py:147 | the matches do not overlap and come in text order |
| Numbers.WholeRunMatched | services/checks.py:7 | a run of digits with no word character before it, and neither a word character nor `.`, `,` or white space after it, is matched as a whole |
| Numbers.RunEndsFirst | services/checks.py:7 | for a digit run followed by neither a word character nor `.`, `,` or white space, the first accepted end is the end of the run |
| Numbers.LeadOfRunFirst | services/checks.py:7 | a run of at most 3 digits followed by neither a word character nor `.`, `,` or white space is accepted by the first alternative at its full length |
| Numbers.LongRunFirst | services/checks.py:7 | a longer run followed by neither a word character nor `.`, `,` or white space is accepted by the second alternative at its full length |
| Numbers.ShortLeadsFail | services/checks.py:7 | a lead shorter than the digit run is always followed by a digit, so `(?!\w)` rejects it |
| Numbers.GroupedDecimalMatched | services/checks.py:7 | a lead of up to three digits, the groups greedy matching takes and a decimal fraction are matched whole when no word character follows |
| Numbers.GroupedDecimalExample | services/checks.py:7 | `1,250.50` is one match, not `1`, `250` and `50` |
| Numbers.OutsideDates | services/checks.py:141-147 | exactly the matches that overlap no date span (the half-open test `not (b <= s or a >= e)`): each kept one comes from the input, every one outside the spans is kept, and matches in order stay in order |
| Numbers.MatchTexts | services/checks.py:147 | `m.group(0)` of each match, in order |
| Numbers.AmountsOf | services/checks.py:148 | `_normalize_amount` of each raw number, in order |
| Numbers.DropEmpty | services/checks.py:148 | the `if x` filter keeps only non-empty strings, and keeps everything when none is empty |
| Numbers.KeptNumerals | services/checks.py:139-147 | exactly the `NUM_RE` matches on the normalized text that lie outside every accepted date span, in text order |
| Numbers.ExtractedShape | services/checks.py:137-149 | every number is a non-empty canonical amount and every date is a `YYYY-MM-DD` string |
| Numbers.NumbersAvoidDates | services/checks.py:141-148 | every number comes from a `NUM_RE` match that does not overlap an accepted date span |
| Numbers.DatesAreFilterOutput | services/checks.py:139 | the dates are the ISO strings of the date filter, in its order |
| Numbers.NumeralAmountNonEmpty | services/checks.py:147-148 | a `NUM_RE` match always normalizes to a non-empty amount |
| Numbers.NothingDroppedAsEmpty | services/checks.py:148 | the `if x` filter never drops anything: the numbers are exactly the amounts of the kept matches |
| Names.TokenEnd | services/checks.py:154 | `[\p{L}\-']*` consumes the longest run of token characters |
| Names.TokensFrom | services/checks.py:154 | every token `findall` returns is a letter followed by letters, `-` and `'` |
| Names.TokensFromSpans | services/checks.py:154 | the tokens are the text slices of spans in text order, each starting at a letter and taking the longest run of token characters; no letter lies outside the spans |
| Names.TitleIsNotAllCaps | services/checks.py:10-11 | a TITLE token is never ALLCAPS, so the ALLCAPS filter never removes a token |
| Names.GroupTokensOk | services/checks.py:155-164 | every group the loop collects is a maximal run of two or more consecutive TITLE tokens |
| Names.TitleRunsAreRuns | services/checks.py:155-164 | every collected group is such a run |
| Names.TitleRunsComplete | services/checks.py:155-164 | every such run is collected |
| Names.DropAllCaps | services/checks.py:168 | the filter keeps only tokens of the group that are not ALLCAPS |
| Names.CleanRuns | services/checks.py:166-170 | on groups of two or more TITLE tokens the cleaning step keeps every group whole and joins its tokens with single spaces |
| Names.ExtractNameSpans | services/checks.py:151-171 | the two loops compute the name candidates of the specification |
| Names.NameCandidatesAreRuns | services/checks.py:151-171 | a string is a candidate exactly when it is the space-joined tokens of a maximal run of two or more consecutive TITLE tokens |
| Names.BestMatch | services/checks.py:180-184 | a best target is recorded exactly when the best score is positive |
| Names.BestMatchIsFirstMax | services/checks.py:180-184 | the recorded target has the maximal score and is the first target with that score (strict `>`); none is recorded only when every score is 0 |
| Names.BestNear | services/checks.py:180-184 | the loop ends holding the best match of the specification: the first target name with the highest score, or none when every score is 0 |
| Names.NameTypos | services/checks.py:173-187 | the loops compute the typos of the specification for the two texts' candidates |
| Names.TyposSound | services/checks.py:177-187 | every report names a source candidate that does not occur in the target, with a score of at least 80 and the first best target; a source candidate is reported exactly when it does not occur in the target and its best score is at least 80 |
| Align.SpaceRunEnd | services/align.py:4 | `\s+` consumes the whole run of white space |
| Align.Scan | services/align.py:4-9 | the splitter always yields at least one piece |
| Align.ScanOk | services/align.py:4-9 | the pieces tile the text: each piece has no split point inside it, and consecutive pieces are separated by a whole white-space run that follows a terminator |
| Align.Texts | services/align.py:9 | the piece strings are the text slices of the pieces |
| Align.GapTexts | services/align.py:9 | the separators are the text between consecutive pieces |
| Align.WeaveTiling | services/align.py:9 | interleaving the pieces with the separators gives back the text |
| Align.Split | services/align.py:9 | `re.split` yields at least one piece |
| Align.Separators | services/align.py:9 | there is one separator fewer than pieces |
| Align.NonBlank | services/align.py:10 | the filter never adds pieces |
| Align.PiecesOfStripped | services/align.py:4-9 | on stripped text every piece is a sentence; every piece but the last ends with a terminator |
| Align.NonBlankKeepsAll | services/align.py:10 | the filter keeps everything when every piece is non-blank |
| Align.SplitSentencesEmpty | services/align.py:6-10 | the result is `[]` exactly when the text is empty or all white space; there is no whole-text fallback |
| Align.SplitSentencesAreSentences | services/align.py:4-10 | every piece is non-blank and does not start with white space; every piece but the last ends with one of `. ! ? 。 ؟`; no terminator followed by white space remains inside a piece, so a newline without a terminator is not a boundary |
| Align.SeparatorsAreSpace | services/align.py:4 | every removed separator is a non-empty run of white space |
| Align.SplitSentencesRejoin | services/align.py:9-10 | the filter drops nothing from stripped text, and joining the sentences with the removed separators gives back `text.strip()` |
| Align.Blanks | services/align.py:16-17 | `[""] * n` is `n` empty strings |
| Align.SimpleAlign | services/align.py:12-18 | both lists have length `max(len(s), len(t))`; each starts with that side's sentences in order, and the rest are `""` |
| Checks.SearchPair | services/checks.py:211-214 | a search hit is a position where the two-character pattern holds |
| Checks.SearchPairMisses | services/checks.py:211-214 | the search fails exactly when no adjacent pair matches |
| Checks.ExtraSpacesIff | services/checks.py:8 | `EXTRA_SPACE_RE.search(t)` succeeds exactly when two adjacent characters are white space or NBSP |
| Checks.DoublePunctuationIff | services/checks.py:9 | `DOUBLE_PUNCT_RE.search(t)` succeeds exactly when one of `!?.,:;` appears twice in a row |
| Checks.AsSet | services/checks.py:195-198 | `set(xs)` holds exactly the elements of `xs` |
| Checks.LengthOffIff | services/checks.py:205-207 | the length-ratio detector fires exactly when `s` is non-empty and `2*len(t) < len(s)` or `len(t) > 2*len(s)` |
| Checks.RatioBounds | services/checks.py:206-207 | the real-number comparisons of the ratio are the same as the cross-multiplied ones |
| Checks.AppendTypoIssues | services/checks.py:216-218 | one issue is appended for each reported typo |
| Checks.Count | services/checks.py:221-223 | a severity count never exceeds the number of issues |
| Checks.CountsAddUp | services/checks.py:220-223 | the three severity counts add up to the number of issues |
| Checks.RunDetectors | services/checks.py:195-214 | the six fixed detectors run in order, each appending its issue when its condition holds |
| Checks.AppendTypos | services/checks.py:216-218 | the loop appends one name issue per typo, in order |
| Checks.Detect | services/checks.py:192-218 | the body of the segment loop appends exactly the segment's issues |
| Checks.RunChecks | services/checks.py:189-226 | the issues are the segment issues of the pairs `zip` forms, in order; the summary counts each severity among them and gives `segments = len(src_segments)` |
| Checks.SegmentAppend | services/checks.py:191-218 | one segment's issues are appended after the issues collected so far |
| Checks.DetectorsAppend | services/checks.py:195-214 | the detectors only append to the list they are given |
| Checks.SegmentIssuesRaised | services/checks.py:196-218 | every issue of a segment carries that segment's number and texts and its detector's severity |
| Checks.AllIssuesSnoc | services/checks.py:191 | the issue list up to pair `n` is the list up to `n-1` followed by the issues of pair `n` |
| Checks.AllIssuesBySegment | services/checks.py:191-218 | an issue is in the list exactly when its segment is in `1..min(len src, len tgt)` and the detectors raise it for that pair; it carries the texts of that pair |
| Checks.FlattenMembers | services/checks.py:191 | concatenating per-segment lists keeps each issue with its own segment |
| Checks.AllIssuesInOrder | services/checks.py:191-218 | issues are ordered by segment, then by detector order (number, date, untranslated, length, extra spaces, double punctuation, names) |
| Checks.SegmentInOrder | services/checks.py:195-218 | within a segment, issues follow the detector order |
| Checks.DetectorsFire | services/checks.py:195-214 | each fixed detector raises an issue exactly when its condition holds |
| Checks.AppendTypoIssuesFire | services/checks.py:216-218 | a name issue is raised exactly when `name_typos` reports something |
| Checks.SegmentTriggers | services/checks.py:195-218 | for one pair: a number or date mismatch exactly when some value is in one set and not the other; untranslated exactly when both texts are non-empty and `partial_ratio >= 90`; the length, spacing and punctuation detectors exactly on their integer and character conditions; a name issue exactly when `name_typos` is non-empty |

## Left out

- The Flask application, file extraction, DOCX annotation and the LLM checker. These are I/O and network glue around the engine.
- The third `glossary_path` argument that the web layer passes. `run_checks` takes two lists, and no glossary detector exists in the engine's code.
- `dateparser.search_dates` is a parameter. Which candidates it finds, and which date it resolves for each, are not modelled; its exception and its `None` both become the empty sequence.
- `fuzz.ratio` and `fuzz.partial_ratio` are parameters: how a score is computed is not modelled, only that it is a real between `0.0` and `100.0`. Exact reals stand for the library's floats, which are only compared against each other and against `80` and `90`.
- The Unicode database is a parameter. `Valid` states only the facts about it that the proofs use.
- `round(ratio, 2)` in the length-ratio detail. The model keeps the ratio as an exact real. The trigger is proved in integer arithmetic, which matches floating-point division while lengths stay below 2^52.
- Case-insensitive matching of month words folds only ASCII and Latin-1 capitals, plus KELVIN SIGN and LONG S, which fold onto `k` and `s`. No other character folds onto a letter of a month name under simple case folding.
- The JSON/dictionary shape of an issue's `detail`. It is a `Detail` datatype.
- `text or ""` and `tgt or ""` for a `None` argument. The model takes strings only, and `None` behaves like `""`, which the model does handle.
- The `except` branch of `normalize_digits`. `unicodedata.digit` cannot fail on an `Nd` character, so that branch is never taken.
- `to_iso` returning `None`: a `Date` always has a 4-digit year, so formatting cannot fail. A candidate whose date could not be produced is a `None` date, which is skipped.
- `has_letters` in `_find_dates_any_language`. It is computed and never used.
- The `re.X` flag on `NUM_RE`. The pattern has no space or `#` outside a class, so the flag changes nothing.
- Dates.StepCursor: the cursor can move back. When a raw text occurs only before the cursor, the fallback `text_norm.find(raw)` places it there, as `Dates.CursorCanMoveBack` proves, so only the weaker statement is proved.
- Dates.HasMonthWordIff: `\b` is checked on the ±15 window, not on the whole text. A window that cuts through a longer word can make a month word look whole (for example `"mars"` at the cut edge of `"marsupial"`). The model does the same, and `Dates.MonthWordInWindow` only proves the direction from whole words to the window.
- `SPLIT_RE` splits only at white space that follows a terminator; a newline alone is not a boundary, and an all-blank text gives `[]`.
- Dates.Window: its own contract gives only the length bound; the exact slice is stated by `Dates.WindowSlice`.
- Names.TokensFrom: its own contract gives only the shape of each token; where the tokens lie and that none is missed is stated by `Names.TokensFromSpans`.
- Numbers.MatchEnd: the end found is proved to be a `NUM_RE` end that `(?!\w)` accepts, and one exists exactly when the regex matches; that it is the end the backtracking engine picks among several accepted ends follows from the order `GroupEnds`, `LeadEnds`, `RunEnds` and `NumeralEnds` list them in. That order is proved only for `FractionEnds` (longest first) and for plain digit runs (`Numbers.WholeRunMatched`) and grouped decimals (`Numbers.GroupedDecimalMatched`).
