/**
 * The rule engine `run_checks`: for each aligned pair of segments it runs
 * the detectors in a fixed order, collects the issues they raise and
 * counts them by severity.
 */
module Checks {
  import opened Text
  import Dates
  import Numbers
  import Names

  datatype Kind =
    | NumberMismatch
    | DateMismatch
    | PossiblyUntranslated
    | LengthRatio
    | OrthographyExtraSpaces
    | OrthographyDoublePunctuation
    | NamePossibleTypo

  datatype Severity = High | Medium | Low

  /** The severity each detector reports with. */
  function SeverityOf(k: Kind): Severity {
    match k
    case NumberMismatch | DateMismatch => High
    case PossiblyUntranslated | NamePossibleTypo => Medium
    case LengthRatio | OrthographyExtraSpaces | OrthographyDoublePunctuation => Low
  }

  /** The position of each detector in the order `run_checks` runs them. */
  function Rank(k: Kind): nat {
    match k
    case NumberMismatch => 0
    case DateMismatch => 1
    case PossiblyUntranslated => 2
    case LengthRatio => 3
    case OrthographyExtraSpaces => 4
    case OrthographyDoublePunctuation => 5
    case NamePossibleTypo => 6
  }

  /** The `detail` of an issue; the length ratio is kept exact, without `round(ratio, 2)`. */
  datatype Detail =
    | NoDetail
    | Values(srcValues: seq<string>, tgtValues: seq<string>)
    | Ratio(ratio: real)
    | NameNear(sourceName: string, targetNear: string, score: Names.Score)

  datatype Issue = Issue(kind: Kind, severity: Severity, segment: nat, src: string, tgt: string, detail: Detail)

  datatype Summary = Summary(high: nat, medium: nat, low: nat, segments: nat)

  datatype Report = Report(summary: Summary, issues: seq<Issue>)

  /**
   * What the engine takes from libraries: the Unicode table, what
   * `search_dates` finds in a text, `fuzz.ratio` and `fuzz.partial_ratio`.
   */
  datatype Env = Env(
    u: CharTable,
    search: string -> seq<Dates.Candidate>,
    ratio: (string, string) -> Names.Score,
    partialRatio: (string, string) -> Names.Score)

  // ---- the two orthography patterns ----

  /** `re.search` for a two-character pattern: the first `k >= i` with `p(t[k], t[k + 1])`. */
  function SearchPair(t: string, i: nat, p: (char, char) -> bool): (r: Option<nat>)
    ensures r.Some? ==> i <= r.value && r.value + 1 < |t| && p(t[r.value], t[r.value + 1])
    decreases |t| - i
  {
    if i + 1 >= |t| then None
    else if p(t[i], t[i + 1]) then Some(i)
    else SearchPair(t, i + 1, p)
  }

  /** The search misses only when no pair from `i` on matches. */
  lemma {:induction false} SearchPairMisses(t: string, i: nat, p: (char, char) -> bool)
    ensures SearchPair(t, i, p).None? <==> forall k :: i <= k < |t| - 1 ==> !p(t[k], t[k + 1])
    decreases |t| - i
  {
    if i + 1 < |t| && !p(t[i], t[i + 1]) {
      SearchPairMisses(t, i + 1, p);
    }
  }

  /** Two `\s` in a row: where `EXTRA_SPACE_RE` can match (U+00A0 is itself `\s`). */
  predicate SpacePair(a: char, b: char) {
    IsSpace(a) && IsSpace(b)
  }

  /** One of `!?.,:;` twice in a row: where `DOUBLE_PUNCT_RE` can match. */
  predicate PunctuationPair(a: char, b: char) {
    a in "!?.,:;" && b == a
  }

  /** `EXTRA_SPACE_RE.search(t)` finds a match. */
  predicate HasExtraSpaces(t: string) {
    SearchPair(t, 0, SpacePair).Some?
  }

  /** `DOUBLE_PUNCT_RE.search(t)` finds a match. */
  predicate HasDoublePunctuation(t: string) {
    SearchPair(t, 0, PunctuationPair).Some?
  }

  lemma ExtraSpacesIff(t: string)
    ensures HasExtraSpaces(t) <==> exists k :: 0 <= k < |t| - 1 && IsSpace(t[k]) && IsSpace(t[k + 1])
  {
    SearchPairMisses(t, 0, SpacePair);
  }

  lemma DoublePunctuationIff(t: string)
    ensures HasDoublePunctuation(t) <==> exists k :: 0 <= k < |t| - 1 && t[k] in "!?.,:;" && t[k + 1] == t[k]
  {
    SearchPairMisses(t, 0, PunctuationPair);
  }

  // ---- one segment ----

  /** `set(xs)`. */
  function AsSet(xs: seq<string>): (r: set<string>)
    ensures forall x :: x in r <==> x in xs
  {
    set x | x in xs
  }

  /** `len(t) / max(1, len(s))`, exactly. */
  function LengthRatioOf(s: string, t: string): real {
    |t| as real / (if |s| > 1 then |s| else 1) as real
  }

  /** The length-ratio detector's condition. */
  predicate LengthOff(s: string, t: string) {
    s != "" && (LengthRatioOf(s, t) < 0.5 || LengthRatioOf(s, t) > 2.0)
  }

  /** The length-ratio test, in integers: one text is less than half as long as the other. */
  lemma LengthOffIff(s: string, t: string)
    ensures LengthOff(s, t) <==> s != "" && (2 * |t| < |s| || |t| > 2 * |s|)
  {
    if s != "" {
      RatioBounds(|t| as real, |s| as real);
    }
  }

  /** For a positive `d`, `x / d` compares with 0.5 and 2.0 as `x` compares with `d / 2` and `2 * d`. */
  lemma RatioBounds(x: real, d: real)
    requires d > 0.0
    ensures x / d < 0.5 <==> 2.0 * x < d
    ensures x / d > 2.0 <==> x > 2.0 * d
  {
    var r := x / d;
    assert r * d == x;
  }

  /** `issues` with `issue` appended when `c` holds: one detector's `if`. */
  function Fire(issues: seq<Issue>, c: bool, issue: Issue): seq<Issue> {
    if c then issues + [issue] else issues
  }

  /**
   * `issues` after the six fixed detectors have run on segment `i`, given
   * what `extract_numbers_dates` found in each text and the `partial_ratio`
   * of the two.
   */
  function Detectors(issues: seq<Issue>, i: nat, s: string, t: string, sx: Numbers.Extracted, tx: Numbers.Extracted, partial: real): seq<Issue> {
    var afterNumbers := Fire(issues, AsSet(sx.nums) != AsSet(tx.nums), Issue(NumberMismatch, High, i, s, t, Values(sx.nums, tx.nums)));
    var afterDates := Fire(afterNumbers, AsSet(sx.dates) != AsSet(tx.dates), Issue(DateMismatch, High, i, s, t, Values(sx.dates, tx.dates)));
    var afterCopy := Fire(afterDates, s != "" && t != "" && partial >= 90.0, Issue(PossiblyUntranslated, Medium, i, s, t, NoDetail));
    var afterLength := Fire(afterCopy, LengthOff(s, t), Issue(LengthRatio, Low, i, s, t, Ratio(LengthRatioOf(s, t))));
    var afterSpaces := Fire(afterLength, t != "" && HasExtraSpaces(t), Issue(OrthographyExtraSpaces, Low, i, s, t, NoDetail));
    Fire(afterSpaces, t != "" && HasDoublePunctuation(t), Issue(OrthographyDoublePunctuation, Low, i, s, t, NoDetail))
  }

  /** The `name_possible_typo` issue for one reported name. */
  function TypoIssue(i: nat, s: string, t: string, ty: Names.Typo): Issue {
    Issue(NamePossibleTypo, Medium, i, s, t, NameNear(ty.sourceName, ty.targetNear, ty.score))
  }

  /** `issues` after the loop over `name_typos(s, t)`. */
  function AppendTypoIssues(issues: seq<Issue>, i: nat, s: string, t: string, typos: seq<Names.Typo>): (r: seq<Issue>)
    ensures |r| == |issues| + |typos|
  {
    if typos == [] then issues
    else AppendTypoIssues(issues, i, s, t, typos[..|typos| - 1]) + [TypoIssue(i, s, t, typos[|typos| - 1])]
  }

  /**
   * The three results a segment's checks depend on: what
   * `extract_numbers_dates` returns for a text, `fuzz.partial_ratio` of the
   * pair, and what `name_typos` returns for the pair.
   */
  datatype Engine = Engine(
    extract: string -> Numbers.Extracted,
    partialRatio: (string, string) -> Names.Score,
    typos: (string, string) -> seq<Names.Typo>)

  /** The engine `run_checks` runs with. */
  function EngineOf(env: Env): Engine {
    Engine(
      text => Numbers.ExtractNumbersDates(env.u, env.search, text),
      env.partialRatio,
      (s, t) => Names.TyposOf(env.ratio, t, Names.NameCandidates(env.u, s), Names.NameCandidates(env.u, t)))
  }

  /** `issues` after one turn of the loop of `run_checks`, on segment `i`. */
  function Segment(issues: seq<Issue>, eng: Engine, i: nat, s: string, t: string): seq<Issue> {
    AppendTypoIssues(Detectors(issues, i, s, t, eng.extract(s), eng.extract(t), eng.partialRatio(s, t)), i, s, t, eng.typos(s, t))
  }

  /** The issues raised for segment `i`, in the order the detectors run. */
  function SegmentIssues(eng: Engine, i: nat, s: string, t: string): seq<Issue> {
    Segment([], eng, i, s, t)
  }

  /** The issues of segments `1..n`. */
  function AllIssues(eng: Engine, src: seq<string>, tgt: seq<string>, n: nat): seq<Issue>
    requires n <= |src| && n <= |tgt|
  {
    if n == 0 then [] else Segment(AllIssues(eng, src, tgt, n - 1), eng, n, src[n - 1], tgt[n - 1])
  }

  /** `sum(1 for x in issues if x["severity"] == sev)`. */
  function Count(issues: seq<Issue>, sev: Severity): (c: nat)
    ensures c <= |issues|
  {
    if issues == [] then 0
    else Count(issues[..|issues| - 1], sev) + (if issues[|issues| - 1].severity == sev then 1 else 0)
  }

  /** The number of pairs `zip` yields. */
  function Paired(src: seq<string>, tgt: seq<string>): nat {
    if |src| <= |tgt| then |src| else |tgt|
  }

  /** The body of the loop of `run_checks` for segment `i`: the detectors append to `issues` in order. */
  method Detect(env: Env, i: nat, s: string, t: string, issues: seq<Issue>) returns (out: seq<Issue>)
    ensures out == Segment(issues, EngineOf(env), i, s, t)
  {
    var sx := Numbers.ExtractNumbersDates(env.u, env.search, s);
    var tx := Numbers.ExtractNumbersDates(env.u, env.search, t);
    out := RunDetectors(i, s, t, sx, tx, env.partialRatio(s, t), issues);
    var typos := Names.NameTypos(env.u, env.ratio, s, t);
    out := AppendTypos(i, s, t, typos, out);
  }

  /** The six fixed detectors, each appending at most one issue. */
  method RunDetectors(i: nat, s: string, t: string, sx: Numbers.Extracted, tx: Numbers.Extracted, partial: real, issues: seq<Issue>)
    returns (out: seq<Issue>)
    ensures out == Detectors(issues, i, s, t, sx, tx, partial)
  {
    out := issues;
    if AsSet(sx.nums) != AsSet(tx.nums) {
      out := out + [Issue(NumberMismatch, High, i, s, t, Values(sx.nums, tx.nums))];
    }
    if AsSet(sx.dates) != AsSet(tx.dates) {
      out := out + [Issue(DateMismatch, High, i, s, t, Values(sx.dates, tx.dates))];
    }
    if s != "" && t != "" && partial >= 90.0 {
      out := out + [Issue(PossiblyUntranslated, Medium, i, s, t, NoDetail)];
    }
    if s != "" {
      var ratio := |t| as real / (if |s| > 1 then |s| else 1) as real;
      if ratio < 0.5 || ratio > 2.0 {
        out := out + [Issue(LengthRatio, Low, i, s, t, Ratio(ratio))];
      }
    }
    if t != "" && HasExtraSpaces(t) {
      out := out + [Issue(OrthographyExtraSpaces, Low, i, s, t, NoDetail)];
    }
    if t != "" && HasDoublePunctuation(t) {
      out := out + [Issue(OrthographyDoublePunctuation, Low, i, s, t, NoDetail)];
    }
  }

  /** The last loop of the segment: one `name_possible_typo` issue per reported name. */
  method AppendTypos(i: nat, s: string, t: string, typos: seq<Names.Typo>, issues: seq<Issue>) returns (out: seq<Issue>)
    ensures out == AppendTypoIssues(issues, i, s, t, typos)
  {
    out := issues;
    for k := 0 to |typos|
      invariant out == AppendTypoIssues(issues, i, s, t, typos[..k])
    {
      assert typos[..k + 1][..k] == typos[..k];
      var ty := typos[k];
      out := out + [Issue(NamePossibleTypo, Medium, i, s, t, NameNear(ty.sourceName, ty.targetNear, ty.score))];
    }
    assert typos[..|typos|] == typos;
  }

  /**
   * `run_checks(src_segments, tgt_segments)`: the issues of every pair
   * `zip` yields, numbered from 1, and the summary counting them by
   * severity, with the number of source segments.
   */
  method RunChecks(env: Env, src: seq<string>, tgt: seq<string>) returns (report: Report)
    ensures report.issues == AllIssues(EngineOf(env), src, tgt, Paired(src, tgt))
    ensures report.summary == Summary(Count(report.issues, High), Count(report.issues, Medium), Count(report.issues, Low), |src|)
  {
    var issues: seq<Issue> := [];
    for i := 0 to Paired(src, tgt)
      invariant issues == AllIssues(EngineOf(env), src, tgt, i)
    {
      issues := Detect(env, i + 1, src[i], tgt[i], issues);
    }
    report := Report(Summary(Count(issues, High), Count(issues, Medium), Count(issues, Low), |src|), issues);
  }

  // ---- what the engine promises ----

  /** Appending to a longer prefix appends the same issues. */
  lemma FireAppend(xs: seq<Issue>, ys: seq<Issue>, c: bool, x: Issue)
    ensures Fire(xs + ys, c, x) == xs + Fire(ys, c, x)
  {
    if c {
      assert (xs + ys) + [x] == xs + (ys + [x]);
    }
  }

  lemma DetectorsAppend(xs: seq<Issue>, i: nat, s: string, t: string, sx: Numbers.Extracted, tx: Numbers.Extracted, partial: real)
    ensures Detectors(xs, i, s, t, sx, tx, partial) == xs + Detectors([], i, s, t, sx, tx, partial)
  {
    var a0: seq<Issue> := [];
    assert xs == xs + a0;
    var c1, x1 := AsSet(sx.nums) != AsSet(tx.nums), Issue(NumberMismatch, High, i, s, t, Values(sx.nums, tx.nums));
    FireAppend(xs, a0, c1, x1);
    var a1 := Fire(a0, c1, x1);
    var c2, x2 := AsSet(sx.dates) != AsSet(tx.dates), Issue(DateMismatch, High, i, s, t, Values(sx.dates, tx.dates));
    FireAppend(xs, a1, c2, x2);
    var a2 := Fire(a1, c2, x2);
    var c3, x3 := s != "" && t != "" && partial >= 90.0, Issue(PossiblyUntranslated, Medium, i, s, t, NoDetail);
    FireAppend(xs, a2, c3, x3);
    var a3 := Fire(a2, c3, x3);
    var c4, x4 := LengthOff(s, t), Issue(LengthRatio, Low, i, s, t, Ratio(LengthRatioOf(s, t)));
    FireAppend(xs, a3, c4, x4);
    var a4 := Fire(a3, c4, x4);
    var c5, x5 := t != "" && HasExtraSpaces(t), Issue(OrthographyExtraSpaces, Low, i, s, t, NoDetail);
    FireAppend(xs, a4, c5, x5);
    var a5 := Fire(a4, c5, x5);
    var c6, x6 := t != "" && HasDoublePunctuation(t), Issue(OrthographyDoublePunctuation, Low, i, s, t, NoDetail);
    FireAppend(xs, a5, c6, x6);
  }

  lemma {:induction false} AppendTypoIssuesAppend(xs: seq<Issue>, ys: seq<Issue>, i: nat, s: string, t: string, typos: seq<Names.Typo>)
    ensures AppendTypoIssues(xs + ys, i, s, t, typos) == xs + AppendTypoIssues(ys, i, s, t, typos)
  {
    if typos != [] {
      AppendTypoIssuesAppend(xs, ys, i, s, t, typos[..|typos| - 1]);
      var last := [TypoIssue(i, s, t, typos[|typos| - 1])];
      assert (xs + AppendTypoIssues(ys, i, s, t, typos[..|typos| - 1])) + last
        == xs + (AppendTypoIssues(ys, i, s, t, typos[..|typos| - 1]) + last);
    }
  }

  /** A turn of the loop appends the issues of its segment and leaves the earlier ones alone. */
  lemma SegmentAppend(xs: seq<Issue>, eng: Engine, i: nat, s: string, t: string)
    ensures Segment(xs, eng, i, s, t) == xs + SegmentIssues(eng, i, s, t)
  {
    var sx := eng.extract(s);
    var tx := eng.extract(t);
    DetectorsAppend(xs, i, s, t, sx, tx, eng.partialRatio(s, t));
    AppendTypoIssuesAppend(xs, Detectors([], i, s, t, sx, tx, eng.partialRatio(s, t)), i, s, t, eng.typos(s, t));
  }

  /** Issue `x` was raised for segment `i` on `s` and `t`, with its detector's severity. */
  predicate RaisedFor(x: Issue, i: nat, s: string, t: string) {
    x.segment == i && x.src == s && x.tgt == t && x.severity == SeverityOf(x.kind)
  }

  lemma FireRaised(xs: seq<Issue>, c: bool, x: Issue, i: nat, s: string, t: string)
    requires forall k :: 0 <= k < |xs| ==> RaisedFor(xs[k], i, s, t)
    requires RaisedFor(x, i, s, t)
    ensures forall k :: 0 <= k < |Fire(xs, c, x)| ==> RaisedFor(Fire(xs, c, x)[k], i, s, t)
  {
  }

  lemma DetectorsRaised(i: nat, s: string, t: string, sx: Numbers.Extracted, tx: Numbers.Extracted, partial: real)
    ensures var d := Detectors([], i, s, t, sx, tx, partial); forall k :: 0 <= k < |d| ==> RaisedFor(d[k], i, s, t)
  {
    var a0: seq<Issue> := [];
    var c1, x1 := AsSet(sx.nums) != AsSet(tx.nums), Issue(NumberMismatch, High, i, s, t, Values(sx.nums, tx.nums));
    FireRaised(a0, c1, x1, i, s, t);
    var a1 := Fire(a0, c1, x1);
    var c2, x2 := AsSet(sx.dates) != AsSet(tx.dates), Issue(DateMismatch, High, i, s, t, Values(sx.dates, tx.dates));
    FireRaised(a1, c2, x2, i, s, t);
    var a2 := Fire(a1, c2, x2);
    var c3, x3 := s != "" && t != "" && partial >= 90.0, Issue(PossiblyUntranslated, Medium, i, s, t, NoDetail);
    FireRaised(a2, c3, x3, i, s, t);
    var a3 := Fire(a2, c3, x3);
    var c4, x4 := LengthOff(s, t), Issue(LengthRatio, Low, i, s, t, Ratio(LengthRatioOf(s, t)));
    FireRaised(a3, c4, x4, i, s, t);
    var a4 := Fire(a3, c4, x4);
    var c5, x5 := t != "" && HasExtraSpaces(t), Issue(OrthographyExtraSpaces, Low, i, s, t, NoDetail);
    FireRaised(a4, c5, x5, i, s, t);
    var a5 := Fire(a4, c5, x5);
    var c6, x6 := t != "" && HasDoublePunctuation(t), Issue(OrthographyDoublePunctuation, Low, i, s, t, NoDetail);
    FireRaised(a5, c6, x6, i, s, t);
  }

  lemma {:induction false} AppendTypoIssuesRaised(xs: seq<Issue>, i: nat, s: string, t: string, typos: seq<Names.Typo>)
    requires forall k :: 0 <= k < |xs| ==> RaisedFor(xs[k], i, s, t)
    ensures forall k :: 0 <= k < |AppendTypoIssues(xs, i, s, t, typos)| ==> RaisedFor(AppendTypoIssues(xs, i, s, t, typos)[k], i, s, t)
  {
    if typos != [] {
      AppendTypoIssuesRaised(xs, i, s, t, typos[..|typos| - 1]);
      FireRaised(AppendTypoIssues(xs, i, s, t, typos[..|typos| - 1]), true, TypoIssue(i, s, t, typos[|typos| - 1]), i, s, t);
    }
  }

  /** Every issue of a segment carries the segment's number and texts and its detector's severity. */
  lemma SegmentIssuesRaised(eng: Engine, i: nat, s: string, t: string)
    ensures forall x :: x in SegmentIssues(eng, i, s, t) ==> RaisedFor(x, i, s, t)
  {
    var sx := eng.extract(s);
    var tx := eng.extract(t);
    var d := Detectors([], i, s, t, sx, tx, eng.partialRatio(s, t));
    DetectorsRaised(i, s, t, sx, tx, eng.partialRatio(s, t));
    AppendTypoIssuesRaised(d, i, s, t, eng.typos(s, t));
    assert SegmentIssues(eng, i, s, t) == AppendTypoIssues(d, i, s, t, eng.typos(s, t));
  }

  /** The issues of segments `1..n`, one segment after another. */
  lemma AllIssuesSnoc(eng: Engine, src: seq<string>, tgt: seq<string>, n: nat)
    requires 0 < n <= |src| && n <= |tgt|
    ensures AllIssues(eng, src, tgt, n) == AllIssues(eng, src, tgt, n - 1) + SegmentIssues(eng, n, src[n - 1], tgt[n - 1])
  {
    SegmentAppend(AllIssues(eng, src, tgt, n - 1), eng, n, src[n - 1], tgt[n - 1]);
  }

  /** The issues of each segment `1..n`, as a list per segment. */
  function PerSegment(eng: Engine, src: seq<string>, tgt: seq<string>, n: nat): (segs: seq<seq<Issue>>)
    requires n <= |src| && n <= |tgt|
    ensures |segs| == n && forall k :: 0 <= k < n ==> segs[k] == SegmentIssues(eng, k + 1, src[k], tgt[k])
  {
    seq(n, k requires 0 <= k < n => SegmentIssues(eng, k + 1, src[k], tgt[k]))
  }

  /** The lists of `segs` one after another. */
  function Flatten(segs: seq<seq<Issue>>): seq<Issue> {
    if segs == [] then [] else Flatten(segs[..|segs| - 1]) + segs[|segs| - 1]
  }

  lemma {:induction false} AllIssuesFlatten(eng: Engine, src: seq<string>, tgt: seq<string>, n: nat)
    requires n <= |src| && n <= |tgt|
    ensures AllIssues(eng, src, tgt, n) == Flatten(PerSegment(eng, src, tgt, n))
  {
    if n > 0 {
      AllIssuesFlatten(eng, src, tgt, n - 1);
      AllIssuesSnoc(eng, src, tgt, n);
      var segs := PerSegment(eng, src, tgt, n);
      PerSegmentPrefix(eng, src, tgt, n);
      assert Flatten(segs) == Flatten(segs[..n - 1]) + segs[n - 1];
    }
  }

  lemma PerSegmentPrefix(eng: Engine, src: seq<string>, tgt: seq<string>, n: nat)
    requires 0 < n <= |src| && n <= |tgt|
    ensures PerSegment(eng, src, tgt, n)[..n - 1] == PerSegment(eng, src, tgt, n - 1)
  {
  }

  /** When list `k` holds only issues of segment `k + 1`, an issue is in the whole exactly when it is in its segment's list. */
  lemma {:induction false} FlattenMembers(segs: seq<seq<Issue>>)
    requires forall k :: 0 <= k < |segs| ==> forall x :: x in segs[k] ==> x.segment == k + 1
    ensures forall x :: x in Flatten(segs) <==> 1 <= x.segment <= |segs| && x in segs[x.segment - 1]
  {
    if segs != [] {
      var init := segs[..|segs| - 1];
      FlattenMembers(init);
      assert forall k :: 0 <= k < |init| ==> init[k] == segs[k];
    }
  }

  /**
   * An issue is among those of segments `1..n` exactly when its segment is
   * in `1..n` and the detectors raise it for that segment's pair of texts;
   * so every issue names an existing pair, the texts of that pair, and the
   * severity of its detector.
   */
  lemma AllIssuesBySegment(eng: Engine, src: seq<string>, tgt: seq<string>, n: nat)
    requires n <= |src| && n <= |tgt|
    ensures forall x :: x in AllIssues(eng, src, tgt, n) <==>
      1 <= x.segment <= n && x in SegmentIssues(eng, x.segment, src[x.segment - 1], tgt[x.segment - 1])
    ensures forall x :: x in AllIssues(eng, src, tgt, n) ==>
      1 <= x.segment <= n && RaisedFor(x, x.segment, src[x.segment - 1], tgt[x.segment - 1])
  {
    var segs := PerSegment(eng, src, tgt, n);
    forall k | 0 <= k < n
      ensures forall x :: x in segs[k] ==> RaisedFor(x, k + 1, src[k], tgt[k])
    {
      SegmentIssuesRaised(eng, k + 1, src[k], tgt[k]);
    }
    FlattenMembers(segs);
    AllIssuesFlatten(eng, src, tgt, n);
  }

  // ---- order ----

  /** Segment `s1`'s detector of rank `r1` runs no later than segment `s2`'s of rank `r2`. */
  predicate Precedes(s1: nat, r1: nat, s2: nat, r2: nat) {
    s1 < s2 || (s1 == s2 && r1 <= r2)
  }

  /** Issues are ordered by segment, then by the order the detectors run in. */
  predicate InOrder(xs: seq<Issue>) {
    forall j, k :: 0 <= j < k < |xs| ==> Precedes(xs[j].segment, Rank(xs[j].kind), xs[k].segment, Rank(xs[k].kind))
  }

  /** No issue of `xs` comes after the detector of rank `r` on segment `i`. */
  predicate UpTo(xs: seq<Issue>, i: nat, r: nat) {
    forall k :: 0 <= k < |xs| ==> Precedes(xs[k].segment, Rank(xs[k].kind), i, r)
  }

  lemma FireInOrder(xs: seq<Issue>, c: bool, x: Issue, r: nat)
    requires InOrder(xs) && UpTo(xs, x.segment, r) && r <= Rank(x.kind)
    ensures InOrder(Fire(xs, c, x)) && UpTo(Fire(xs, c, x), x.segment, Rank(x.kind))
  {
  }

  lemma DetectorsInOrder(xs: seq<Issue>, i: nat, s: string, t: string, sx: Numbers.Extracted, tx: Numbers.Extracted, partial: real)
    requires InOrder(xs) && UpTo(xs, i, 0)
    ensures InOrder(Detectors(xs, i, s, t, sx, tx, partial)) && UpTo(Detectors(xs, i, s, t, sx, tx, partial), i, 5)
  {
    var x1 := Issue(NumberMismatch, High, i, s, t, Values(sx.nums, tx.nums));
    FireInOrder(xs, AsSet(sx.nums) != AsSet(tx.nums), x1, 0);
    var a1 := Fire(xs, AsSet(sx.nums) != AsSet(tx.nums), x1);
    var x2 := Issue(DateMismatch, High, i, s, t, Values(sx.dates, tx.dates));
    FireInOrder(a1, AsSet(sx.dates) != AsSet(tx.dates), x2, 0);
    var a2 := Fire(a1, AsSet(sx.dates) != AsSet(tx.dates), x2);
    var x3 := Issue(PossiblyUntranslated, Medium, i, s, t, NoDetail);
    FireInOrder(a2, s != "" && t != "" && partial >= 90.0, x3, 1);
    var a3 := Fire(a2, s != "" && t != "" && partial >= 90.0, x3);
    var x4 := Issue(LengthRatio, Low, i, s, t, Ratio(LengthRatioOf(s, t)));
    FireInOrder(a3, LengthOff(s, t), x4, 2);
    var a4 := Fire(a3, LengthOff(s, t), x4);
    var x5 := Issue(OrthographyExtraSpaces, Low, i, s, t, NoDetail);
    FireInOrder(a4, t != "" && HasExtraSpaces(t), x5, 3);
    var a5 := Fire(a4, t != "" && HasExtraSpaces(t), x5);
    var x6 := Issue(OrthographyDoublePunctuation, Low, i, s, t, NoDetail);
    FireInOrder(a5, t != "" && HasDoublePunctuation(t), x6, 4);
  }

  lemma {:induction false} AppendTypoIssuesInOrder(xs: seq<Issue>, i: nat, s: string, t: string, typos: seq<Names.Typo>)
    requires InOrder(xs) && UpTo(xs, i, 6)
    ensures InOrder(AppendTypoIssues(xs, i, s, t, typos)) && UpTo(AppendTypoIssues(xs, i, s, t, typos), i, 6)
  {
    if typos != [] {
      AppendTypoIssuesInOrder(xs, i, s, t, typos[..|typos| - 1]);
      var prev := AppendTypoIssues(xs, i, s, t, typos[..|typos| - 1]);
      FireInOrder(prev, true, TypoIssue(i, s, t, typos[|typos| - 1]), 6);
    }
  }

  /**
   * The issues of segments `1..n` come ordered by segment and, within a
   * segment, in the order the detectors run: number, date, untranslated,
   * length, extra spaces, double punctuation, names.
   */
  lemma {:induction false} AllIssuesInOrder(eng: Engine, src: seq<string>, tgt: seq<string>, n: nat)
    requires n <= |src| && n <= |tgt|
    ensures InOrder(AllIssues(eng, src, tgt, n)) && UpTo(AllIssues(eng, src, tgt, n), n, 6)
  {
    if n > 0 {
      AllIssuesInOrder(eng, src, tgt, n - 1);
      var prev := AllIssues(eng, src, tgt, n - 1);
      assert UpTo(prev, n, 0);
      SegmentInOrder(prev, eng, n, src[n - 1], tgt[n - 1]);
    }
  }

  lemma SegmentInOrder(xs: seq<Issue>, eng: Engine, i: nat, s: string, t: string)
    requires InOrder(xs) && UpTo(xs, i, 0)
    ensures InOrder(Segment(xs, eng, i, s, t)) && UpTo(Segment(xs, eng, i, s, t), i, 6)
  {
    var sx := eng.extract(s);
    var tx := eng.extract(t);
    DetectorsInOrder(xs, i, s, t, sx, tx, eng.partialRatio(s, t));
    AppendTypoIssuesInOrder(Detectors(xs, i, s, t, sx, tx, eng.partialRatio(s, t)), i, s, t, eng.typos(s, t));
  }

  // ---- triggers ----

  /** Some issue of `xs` comes from detector `k`. */
  predicate Fires(xs: seq<Issue>, k: Kind) {
    exists j :: 0 <= j < |xs| && xs[j].kind == k
  }

  lemma FireFires(xs: seq<Issue>, c: bool, x: Issue, k: Kind)
    ensures Fires(Fire(xs, c, x), k) <==> Fires(xs, k) || (c && x.kind == k)
  {
    if c && x.kind == k {
      assert Fire(xs, c, x)[|xs|] == x;
    }
    if Fires(xs, k) {
      var j :| 0 <= j < |xs| && xs[j].kind == k;
      assert Fire(xs, c, x)[j] == xs[j];
    }
  }

  /** Each fixed detector fires on its own condition, and at most once per segment. */
  lemma DetectorsFire(i: nat, s: string, t: string, sx: Numbers.Extracted, tx: Numbers.Extracted, partial: real, k: Kind)
    ensures var d := Detectors([], i, s, t, sx, tx, partial);
      Fires(d, k) <==> match k
        case NumberMismatch => AsSet(sx.nums) != AsSet(tx.nums)
        case DateMismatch => AsSet(sx.dates) != AsSet(tx.dates)
        case PossiblyUntranslated => s != "" && t != "" && partial >= 90.0
        case LengthRatio => LengthOff(s, t)
        case OrthographyExtraSpaces => t != "" && HasExtraSpaces(t)
        case OrthographyDoublePunctuation => t != "" && HasDoublePunctuation(t)
        case NamePossibleTypo => false
  {
    var a0: seq<Issue> := [];
    var c1, x1 := AsSet(sx.nums) != AsSet(tx.nums), Issue(NumberMismatch, High, i, s, t, Values(sx.nums, tx.nums));
    FireFires(a0, c1, x1, k);
    var a1 := Fire(a0, c1, x1);
    var c2, x2 := AsSet(sx.dates) != AsSet(tx.dates), Issue(DateMismatch, High, i, s, t, Values(sx.dates, tx.dates));
    FireFires(a1, c2, x2, k);
    var a2 := Fire(a1, c2, x2);
    var c3, x3 := s != "" && t != "" && partial >= 90.0, Issue(PossiblyUntranslated, Medium, i, s, t, NoDetail);
    FireFires(a2, c3, x3, k);
    var a3 := Fire(a2, c3, x3);
    var c4, x4 := LengthOff(s, t), Issue(LengthRatio, Low, i, s, t, Ratio(LengthRatioOf(s, t)));
    FireFires(a3, c4, x4, k);
    var a4 := Fire(a3, c4, x4);
    var c5, x5 := t != "" && HasExtraSpaces(t), Issue(OrthographyExtraSpaces, Low, i, s, t, NoDetail);
    FireFires(a4, c5, x5, k);
    var a5 := Fire(a4, c5, x5);
    var c6, x6 := t != "" && HasDoublePunctuation(t), Issue(OrthographyDoublePunctuation, Low, i, s, t, NoDetail);
    FireFires(a5, c6, x6, k);
  }

  lemma {:induction false} AppendTypoIssuesFire(xs: seq<Issue>, i: nat, s: string, t: string, typos: seq<Names.Typo>, k: Kind)
    ensures Fires(AppendTypoIssues(xs, i, s, t, typos), k) <==> Fires(xs, k) || (k == NamePossibleTypo && typos != [])
  {
    if typos != [] {
      AppendTypoIssuesFire(xs, i, s, t, typos[..|typos| - 1], k);
      FireFires(AppendTypoIssues(xs, i, s, t, typos[..|typos| - 1]), true, TypoIssue(i, s, t, typos[|typos| - 1]), k);
    }
  }

  /**
   * When each detector raises an issue for a pair of segments: the number
   * and date checks when the two texts' value sets differ, whatever the
   * order and repetitions; the untranslated check only on two non-empty
   * texts; the length check when one text is less than half as long as
   * the other; the orthography checks on two `\s` or a doubled mark of
   * `!?.,:;` in the target; the name check when `name_typos` reports
   * something.
   */
  lemma SegmentTriggers(eng: Engine, i: nat, s: string, t: string)
    ensures var sx := eng.extract(s);
      var tx := eng.extract(t);
      var ss := SegmentIssues(eng, i, s, t);
      && (Fires(ss, NumberMismatch) <==> exists v :: (v in sx.nums) != (v in tx.nums))
      && (Fires(ss, DateMismatch) <==> exists v :: (v in sx.dates) != (v in tx.dates))
      && (Fires(ss, PossiblyUntranslated) <==> s != "" && t != "" && eng.partialRatio(s, t) >= 90.0)
      && (Fires(ss, LengthRatio) <==> s != "" && (2 * |t| < |s| || |t| > 2 * |s|))
      && (Fires(ss, OrthographyExtraSpaces) <==> exists k :: 0 <= k < |t| - 1 && IsSpace(t[k]) && IsSpace(t[k + 1]))
      && (Fires(ss, OrthographyDoublePunctuation) <==> exists k :: 0 <= k < |t| - 1 && t[k] in "!?.,:;" && t[k + 1] == t[k])
      && (Fires(ss, NamePossibleTypo) <==> eng.typos(s, t) != [])
  {
    var sx := eng.extract(s);
    var tx := eng.extract(t);
    var d := Detectors([], i, s, t, sx, tx, eng.partialRatio(s, t));
    assert SegmentIssues(eng, i, s, t) == AppendTypoIssues(d, i, s, t, eng.typos(s, t));
    forall k: Kind
      ensures Fires(SegmentIssues(eng, i, s, t), k) <==> Fires(d, k) || (k == NamePossibleTypo && eng.typos(s, t) != [])
    {
      AppendTypoIssuesFire(d, i, s, t, eng.typos(s, t), k);
    }
    DetectorsFire(i, s, t, sx, tx, eng.partialRatio(s, t), NumberMismatch);
    DetectorsFire(i, s, t, sx, tx, eng.partialRatio(s, t), DateMismatch);
    DetectorsFire(i, s, t, sx, tx, eng.partialRatio(s, t), PossiblyUntranslated);
    DetectorsFire(i, s, t, sx, tx, eng.partialRatio(s, t), LengthRatio);
    DetectorsFire(i, s, t, sx, tx, eng.partialRatio(s, t), OrthographyExtraSpaces);
    DetectorsFire(i, s, t, sx, tx, eng.partialRatio(s, t), OrthographyDoublePunctuation);
    DetectorsFire(i, s, t, sx, tx, eng.partialRatio(s, t), NamePossibleTypo);
    LengthOffIff(s, t);
    ExtraSpacesIff(t);
    DoublePunctuationIff(t);
  }

  // ---- summary ----

  /** The three severity counts of the summary add up to the number of issues. */
  lemma {:induction false} CountsAddUp(issues: seq<Issue>)
    ensures Count(issues, High) + Count(issues, Medium) + Count(issues, Low) == |issues|
  {
    if issues != [] {
      CountsAddUp(issues[..|issues| - 1]);
    }
  }
}
