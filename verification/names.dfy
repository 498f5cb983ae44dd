/**
 * Person-name checks (services/checks.py): `_extract_name_spans` collects
 * runs of two or more title-case words, and `name_typos` reports source
 * names whose closest target name is similar but not identical.
 */
module Names {
  import opened Text

  // ---- `re.findall(r"\p{L}[\p{L}\-']*", text)` ----

  /** A character of `[\p{L}\-']`. */
  predicate IsTokenChar(u: CharTable, c: char) {
    c in u.letter || c == '-' || c == '\''
  }

  /** The end of the greedy `[\p{L}\-']*` that starts at `j`. */
  function TokenEnd(u: CharTable, s: string, j: nat): (e: nat)
    requires j <= |s|
    ensures j <= e <= |s|
    ensures forall k :: j <= k < e ==> IsTokenChar(u, s[k])
    ensures e == |s| || !IsTokenChar(u, s[e])
    decreases |s| - j
  {
    if j < |s| && IsTokenChar(u, s[j]) then TokenEnd(u, s, j + 1) else j
  }

  /** A token: a letter, then letters, hyphens and apostrophes. */
  predicate IsToken(u: CharTable, t: string) {
    |t| >= 1 && t[0] in u.letter && forall k :: 0 <= k < |t| ==> IsTokenChar(u, t[k])
  }

  /** The tokens found from `i` on; each search resumes where the last token ended. */
  function TokensFrom(u: CharTable, s: string, i: nat): (r: seq<string>)
    requires i <= |s|
    ensures forall k :: 0 <= k < |r| ==> IsToken(u, r[k])
    decreases |s| - i
  {
    if i == |s| then []
    else if s[i] in u.letter then
      var e := TokenEnd(u, s, i + 1);
      [s[i..e]] + TokensFrom(u, s, e)
    else TokensFrom(u, s, i + 1)
  }

  /** No letter lies in `s[lo..hi]`. */
  predicate NoLetterIn(u: CharTable, s: string, lo: nat, hi: nat) {
    forall j :: lo <= j < hi && j < |s| ==> s[j] !in u.letter
  }

  /**
   * `toks` are the tokens found from `i` and lie at `[starts[k], ends[k])`:
   * each starts at a letter and runs to the first character outside
   * `[\p{L}\-']`, they come in text order, and no letter lies before the
   * first, between two of them or after the last.
   */
  ghost predicate TokenSpansOk(u: CharTable, s: string, i: nat, toks: seq<string>, starts: seq<nat>, ends: seq<nat>) {
    && |starts| == |ends| == |toks|
    && (forall k :: 0 <= k < |starts| ==> i <= starts[k] < ends[k] <= |s| && toks[k] == s[starts[k]..ends[k]])
    && (forall k :: 0 <= k < |starts| ==> s[starts[k]] in u.letter && (ends[k] == |s| || !IsTokenChar(u, s[ends[k]])))
    && (forall k :: 0 < k < |starts| ==> ends[k - 1] <= starts[k] && NoLetterIn(u, s, ends[k - 1], starts[k]))
    && NoLetterIn(u, s, i, if starts == [] then |s| else starts[0])
    && (starts != [] ==> NoLetterIn(u, s, ends[|ends| - 1], |s|))
  }

  /** Where the tokens `findall` returns lie in the text. */
  lemma {:induction false} TokensFromSpans(u: CharTable, s: string, i: nat) returns (starts: seq<nat>, ends: seq<nat>)
    requires i <= |s|
    ensures TokenSpansOk(u, s, i, TokensFrom(u, s, i), starts, ends)
    decreases |s| - i
  {
    if i == |s| {
      starts, ends := [], [];
    } else if s[i] in u.letter {
      var e := TokenEnd(u, s, i + 1);
      var st, en := TokensFromSpans(u, s, e);
      assert TokensFrom(u, s, i) == [s[i..e]] + TokensFrom(u, s, e);
      starts, ends := [i] + st, [e] + en;
      TokenSpansCons(u, s, i, e, TokensFrom(u, s, e), st, en);
    } else {
      starts, ends := TokensFromSpans(u, s, i + 1);
      TokenSpansSkip(u, s, i, TokensFrom(u, s, i + 1), starts, ends);
    }
  }

  /** A token found at `i` goes in front of those found after it. */
  lemma TokenSpansCons(u: CharTable, s: string, i: nat, e: nat, toks: seq<string>, st: seq<nat>, en: seq<nat>)
    requires i < e <= |s| && s[i] in u.letter && (e == |s| || !IsTokenChar(u, s[e]))
    requires TokenSpansOk(u, s, e, toks, st, en)
    ensures TokenSpansOk(u, s, i, [s[i..e]] + toks, [i] + st, [e] + en)
  {
    var starts, ends := [i] + st, [e] + en;
    forall k | 0 < k < |starts|
      ensures ends[k - 1] <= starts[k] && NoLetterIn(u, s, ends[k - 1], starts[k])
    {
      if k > 1 {
        assert ends[k - 1] == en[k - 2] && starts[k] == st[k - 1];
      }
    }
  }

  /** A character that is not a letter is skipped over. */
  lemma TokenSpansSkip(u: CharTable, s: string, i: nat, toks: seq<string>, starts: seq<nat>, ends: seq<nat>)
    requires i < |s| && s[i] !in u.letter
    requires TokenSpansOk(u, s, i + 1, toks, starts, ends)
    ensures TokenSpansOk(u, s, i, toks, starts, ends)
  {
    var first := if starts == [] then |s| else starts[0];
    assert NoLetterIn(u, s, i + 1, first);
    forall j | i <= j < first && j < |s|
      ensures s[j] !in u.letter
    {
    }
  }

  // ---- TITLE and ALLCAPS ----

  /** `TITLE.match(t)`: `^\p{Lu}\p{Ll}+$`. */
  predicate IsTitle(u: CharTable, t: string) {
    |t| >= 2 && t[0] in u.upper && forall k :: 1 <= k < |t| ==> t[k] in u.lower
  }

  /** `ALLCAPS.match(t)`: `^\p{Lu}{2,}$`. */
  predicate IsAllCaps(u: CharTable, t: string) {
    |t| >= 2 && forall k :: 0 <= k < |t| ==> t[k] in u.upper
  }

  /** A title-case word is never all capitals, since Lu and Ll are disjoint. */
  lemma TitleIsNotAllCaps(u: CharTable, t: string)
    requires Valid(u)
    requires IsTitle(u, t)
    ensures !IsAllCaps(u, t)
  {
    assert t[1] in u.lower;
  }

  // ---- The grouping loop of `_extract_name_spans` ----

  /** The finished groups `spans` and the open group `cur`. */
  datatype Grouping = Grouping(spans: seq<seq<string>>, cur: seq<string>)

  /** One turn of the loop: a title-case token extends the open group, any other closes it. */
  function NextGrouping(u: CharTable, g: Grouping, tok: string): Grouping {
    if IsTitle(u, tok) then Grouping(g.spans, g.cur + [tok])
    else Grouping(if |g.cur| >= 2 then g.spans + [g.cur] else g.spans, [])
  }

  /** The loop over `tokens` after its first `|toks|` turns. */
  function GroupTokens(u: CharTable, toks: seq<string>): Grouping {
    if toks == [] then Grouping([], [])
    else NextGrouping(u, GroupTokens(u, toks[..|toks| - 1]), toks[|toks| - 1])
  }

  /** The groups once the loop is over and the last open group has been closed. */
  function TitleRuns(u: CharTable, toks: seq<string>): seq<seq<string>> {
    var g := GroupTokens(u, toks);
    if |g.cur| >= 2 then g.spans + [g.cur] else g.spans
  }

  /**
   * `toks[i..j]` is a maximal run of title-case tokens, at least two long:
   * the tokens on either side of it, if any, are not title-case.
   */
  predicate IsRun(u: CharTable, toks: seq<string>, i: nat, j: nat) {
    && i + 2 <= j <= |toks|
    && (forall k :: i <= k < j ==> IsTitle(u, toks[k]))
    && (i == 0 || !IsTitle(u, toks[i - 1]))
    && (j == |toks| || !IsTitle(u, toks[j]))
  }

  /** `grp` is the text of some maximal run of `toks`. */
  ghost predicate IsRunOf(u: CharTable, toks: seq<string>, grp: seq<string>) {
    exists i: nat, j: nat :: IsRun(u, toks, i, j) && grp == toks[i..j]
  }

  /** `grp` is a maximal run of `toks` that a later non-title token closes. */
  ghost predicate IsClosedRunOf(u: CharTable, toks: seq<string>, grp: seq<string>) {
    exists i: nat, j: nat :: IsRun(u, toks, i, j) && j < |toks| && grp == toks[i..j]
  }

  /** The open group is the longest title-case suffix of `toks`. */
  ghost predicate OpenGroupOk(u: CharTable, toks: seq<string>, cur: seq<string>) {
    && |cur| <= |toks| && cur == toks[|toks| - |cur|..]
    && (forall k :: |toks| - |cur| <= k < |toks| ==> IsTitle(u, toks[k]))
    && (|toks| - |cur| == 0 || !IsTitle(u, toks[|toks| - |cur| - 1]))
  }

  /**
   * What the grouping loop keeps as it goes: the open group is the longest
   * title-case suffix of the tokens seen, and every finished group is a
   * maximal run that a non-title token has already closed.
   */
  ghost predicate GroupingOk(u: CharTable, toks: seq<string>, g: Grouping) {
    && OpenGroupOk(u, toks, g.cur)
    && (forall k :: 0 <= k < |g.spans| ==> IsClosedRunOf(u, toks, g.spans[k]))
  }

  /** A closed run stays a closed run when more tokens follow. */
  lemma ClosedRunSurvives(u: CharTable, toks: seq<string>, tok: string, grp: seq<string>)
    requires IsClosedRunOf(u, toks, grp)
    ensures IsClosedRunOf(u, toks + [tok], grp)
  {
    var i: nat, j: nat :| IsRun(u, toks, i, j) && j < |toks| && grp == toks[i..j];
    var toks' := toks + [tok];
    assert toks'[i..j] == toks[i..j];
    assert IsRun(u, toks', i, j);
  }

  /** The grouping loop keeps its invariant on every prefix of the tokens. */
  lemma {:induction false} GroupTokensOk(u: CharTable, toks: seq<string>)
    ensures GroupingOk(u, toks, GroupTokens(u, toks))
  {
    if toks != [] {
      var n := |toks| - 1;
      assert toks == toks[..n] + [toks[n]];
      GroupTokensOk(u, toks[..n]);
      NextGroupingOk(u, toks[..n], toks[n], GroupTokens(u, toks[..n]));
    }
  }

  /** One turn keeps the invariant. */
  lemma NextGroupingOk(u: CharTable, prev: seq<string>, tok: string, g: Grouping)
    requires GroupingOk(u, prev, g)
    ensures GroupingOk(u, prev + [tok], NextGrouping(u, g, tok))
  {
    forall k | 0 <= k < |g.spans|
      ensures IsClosedRunOf(u, prev + [tok], g.spans[k])
    {
      ClosedRunSurvives(u, prev, tok, g.spans[k]);
    }
    if IsTitle(u, tok) {
      ExtendOpenGroup(u, prev, tok, g.cur);
    } else {
      assert OpenGroupOk(u, prev + [tok], []);
      if |g.cur| >= 2 {
        CloseOpenGroup(u, prev, tok, g.cur);
      }
    }
  }

  /** A title-case token extends the open group. */
  lemma ExtendOpenGroup(u: CharTable, prev: seq<string>, tok: string, cur: seq<string>)
    requires OpenGroupOk(u, prev, cur) && IsTitle(u, tok)
    ensures OpenGroupOk(u, prev + [tok], cur + [tok])
  {
    var n := |prev|;
    assert (prev + [tok])[n - |cur|..] == prev[n - |cur|..] + [tok];
  }

  /** Any other token closes an open group of two or more into a closed run. */
  lemma CloseOpenGroup(u: CharTable, prev: seq<string>, tok: string, cur: seq<string>)
    requires OpenGroupOk(u, prev, cur) && !IsTitle(u, tok) && |cur| >= 2
    ensures IsClosedRunOf(u, prev + [tok], cur)
  {
    var toks := prev + [tok];
    var n := |prev|;
    var i := n - |cur|;
    assert toks[i..n] == prev[i..];
    assert IsRun(u, toks, i, n);
  }

  /** Every group `_extract_name_spans` collects is a maximal run of two or more title-case tokens. */
  lemma TitleRunsAreRuns(u: CharTable, toks: seq<string>)
    ensures forall k :: 0 <= k < |TitleRuns(u, toks)| ==> IsRunOf(u, toks, TitleRuns(u, toks)[k])
  {
    GroupTokensOk(u, toks);
    var g := GroupTokens(u, toks);
    if |g.cur| >= 2 {
      var i := |toks| - |g.cur|;
      assert IsRun(u, toks, i, |toks|) && toks[i..|toks|] == g.cur;
    }
  }

  /** Every closed maximal run of `toks` is among the finished groups. */
  ghost predicate GroupingComplete(u: CharTable, toks: seq<string>, g: Grouping) {
    forall i: nat, j: nat :: IsRun(u, toks, i, j) && j < |toks| ==> toks[i..j] in g.spans
  }

  /** A maximal run that reaches the end of `toks` is the open group. */
  lemma RunAtEndIsOpenGroup(u: CharTable, toks: seq<string>, cur: seq<string>, i: nat)
    requires OpenGroupOk(u, toks, cur)
    requires IsRun(u, toks, i, |toks|)
    ensures toks[i..] == cur
  {
  }

  /** The grouping loop misses no closed run, on every prefix of the tokens. */
  lemma {:induction false} GroupTokensComplete(u: CharTable, toks: seq<string>)
    ensures GroupingComplete(u, toks, GroupTokens(u, toks))
  {
    if toks != [] {
      var n := |toks| - 1;
      var prev := toks[..n];
      assert toks == prev + [toks[n]];
      GroupTokensOk(u, prev);
      GroupTokensComplete(u, prev);
      NextGroupingComplete(u, prev, toks[n], GroupTokens(u, prev));
    }
  }

  /** One turn misses no run: a run closed earlier is still there, one closed now is the open group. */
  lemma NextGroupingComplete(u: CharTable, prev: seq<string>, tok: string, g: Grouping)
    requires OpenGroupOk(u, prev, g.cur) && GroupingComplete(u, prev, g)
    ensures GroupingComplete(u, prev + [tok], NextGrouping(u, g, tok))
  {
    var toks := prev + [tok];
    var g' := NextGrouping(u, g, tok);
    forall i: nat, j: nat | IsRun(u, toks, i, j) && j < |toks|
      ensures toks[i..j] in g'.spans
    {
      assert toks[i..j] == prev[i..j];
      assert forall k :: 0 <= k < |prev| ==> toks[k] == prev[k];
      if j < |prev| {
        assert IsRun(u, prev, i, j);
      } else {
        assert IsRun(u, prev, i, |prev|);
        RunAtEndIsOpenGroup(u, prev, g.cur, i);
      }
    }
  }

  /** Every maximal run of two or more title-case tokens is collected. */
  lemma TitleRunsComplete(u: CharTable, toks: seq<string>, i: nat, j: nat)
    requires IsRun(u, toks, i, j)
    ensures toks[i..j] in TitleRuns(u, toks)
  {
    GroupTokensOk(u, toks);
    GroupTokensComplete(u, toks);
    var g := GroupTokens(u, toks);
    if j == |toks| {
      RunAtEndIsOpenGroup(u, toks, g.cur, i);
      assert toks[i..j] == g.cur;
    } else {
      assert toks[i..j] in g.spans;
    }
  }

  // ---- The cleaning loop and `_extract_name_spans` ----

  /** `[t for t in grp if not ALLCAPS.match(t)]`. */
  function DropAllCaps(u: CharTable, grp: seq<string>): (r: seq<string>)
    ensures |r| <= |grp|
    ensures forall t :: t in r ==> t in grp && !IsAllCaps(u, t)
  {
    if grp == [] then [] else (if IsAllCaps(u, grp[0]) then [] else [grp[0]]) + DropAllCaps(u, grp[1..])
  }

  /** The cleaning loop over the first `|groups|` groups. */
  function CleanGroups(u: CharTable, groups: seq<seq<string>>): seq<string> {
    if groups == [] then []
    else
      var grp2 := DropAllCaps(u, groups[|groups| - 1]);
      CleanGroups(u, groups[..|groups| - 1]) + (if |grp2| >= 2 then [Join(grp2, " ")] else [])
  }

  /** What `_extract_name_spans(text)` returns. */
  function NameCandidates(u: CharTable, text: string): seq<string> {
    if text == "" then [] else CleanGroups(u, TitleRuns(u, TokensFrom(u, text, 0)))
  }

  /** `_extract_name_spans(text)`: the grouping loop, then the cleaning loop. */
  method ExtractNameSpans(u: CharTable, text: string) returns (cleaned: seq<string>)
    ensures cleaned == NameCandidates(u, text)
  {
    if text == "" {
      return [];
    }
    var tokens := TokensFrom(u, text, 0);
    var spans: seq<seq<string>> := [];
    var cur: seq<string> := [];
    for i := 0 to |tokens|
      invariant Grouping(spans, cur) == GroupTokens(u, tokens[..i])
    {
      var tok := tokens[i];
      assert tokens[..i + 1][..i] == tokens[..i];
      if IsTitle(u, tok) {
        cur := cur + [tok];
      } else {
        if |cur| >= 2 {
          spans := spans + [cur];
        }
        cur := [];
      }
    }
    assert tokens[..|tokens|] == tokens;
    if |cur| >= 2 {
      spans := spans + [cur];
    }
    cleaned := [];
    for k := 0 to |spans|
      invariant cleaned == CleanGroups(u, spans[..k])
    {
      assert spans[..k + 1][..k] == spans[..k];
      var grp2 := DropAllCaps(u, spans[k]);
      if |grp2| >= 2 {
        cleaned := cleaned + [Join(grp2, " ")];
      }
    }
    assert spans[..|spans|] == spans;
  }

  /** The ALLCAPS filter removes nothing from a group of title-case tokens. */
  lemma {:induction false} DropAllCapsKeepsTitles(u: CharTable, grp: seq<string>)
    requires Valid(u)
    requires forall k :: 0 <= k < |grp| ==> IsTitle(u, grp[k])
    ensures DropAllCaps(u, grp) == grp
  {
    if grp != [] {
      TitleIsNotAllCaps(u, grp[0]);
      DropAllCapsKeepsTitles(u, grp[1..]);
    }
  }

  /** Two or more title-case tokens, as every group the grouping loop collects is. */
  predicate TitleGroup(u: CharTable, grp: seq<string>) {
    |grp| >= 2 && forall m :: 0 <= m < |grp| ==> IsTitle(u, grp[m])
  }

  /** Cleaning groups of title-case tokens joins each of them with single spaces and drops none. */
  lemma {:induction false} CleanRuns(u: CharTable, groups: seq<seq<string>>)
    requires Valid(u)
    requires forall k :: 0 <= k < |groups| ==> TitleGroup(u, groups[k])
    ensures |CleanGroups(u, groups)| == |groups|
    ensures forall k :: 0 <= k < |groups| ==> CleanGroups(u, groups)[k] == Join(groups[k], " ")
  {
    if groups != [] {
      var n := |groups| - 1;
      var grp := groups[n];
      DropAllCapsKeepsTitles(u, grp);
      CleanRuns(u, groups[..n]);
      var c, c0 := CleanGroups(u, groups), CleanGroups(u, groups[..n]);
      assert c == c0 + [Join(grp, " ")];
      forall k | 0 <= k < n
        ensures c[k] == Join(groups[k], " ")
      {
        assert c[k] == c0[k] && groups[..n][k] == groups[k];
      }
    }
  }

  /** Every group the grouping loop collects has two or more title-case tokens. */
  lemma TitleRunsAreGroups(u: CharTable, toks: seq<string>)
    ensures forall k :: 0 <= k < |TitleRuns(u, toks)| ==> TitleGroup(u, TitleRuns(u, toks)[k])
  {
    var groups := TitleRuns(u, toks);
    TitleRunsAreRuns(u, toks);
    forall k | 0 <= k < |groups|
      ensures TitleGroup(u, groups[k])
    {
      assert IsRunOf(u, toks, groups[k]);
      var i: nat, j: nat :| IsRun(u, toks, i, j) && groups[k] == toks[i..j];
    }
  }

  /**
   * The name candidates are exactly the maximal runs of two or more
   * title-case tokens, each joined with single spaces.
   */
  lemma NameCandidatesAreRuns(u: CharTable, text: string)
    requires Valid(u)
    ensures var toks := if text == "" then [] else TokensFrom(u, text, 0);
      forall name :: name in NameCandidates(u, text) <==>
        exists i: nat, j: nat :: IsRun(u, toks, i, j) && name == Join(toks[i..j], " ")
  {
    if text != "" {
      var toks := TokensFrom(u, text, 0);
      var groups := TitleRuns(u, toks);
      TitleRunsAreRuns(u, toks);
      TitleRunsAreGroups(u, toks);
      CleanRuns(u, groups);
      forall name | name in NameCandidates(u, text)
        ensures exists i: nat, j: nat :: IsRun(u, toks, i, j) && name == Join(toks[i..j], " ")
      {
        var k :| 0 <= k < |groups| && name == Join(groups[k], " ");
        var i: nat, j: nat :| IsRun(u, toks, i, j) && groups[k] == toks[i..j];
      }
      forall i: nat, j: nat | IsRun(u, toks, i, j)
        ensures Join(toks[i..j], " ") in NameCandidates(u, text)
      {
        TitleRunsComplete(u, toks, i, j);
        var k :| 0 <= k < |groups| && groups[k] == toks[i..j];
        assert NameCandidates(u, text)[k] == Join(toks[i..j], " ");
      }
    }
  }

  // ---- `name_typos` ----

  /** A similarity score, as `fuzz.ratio` returns it. */
  type Score = s: real | 0.0 <= s <= 100.0

  /** One reported pair `(orig_name, tgt_name, score)`. */
  datatype Typo = Typo(sourceName: string, targetNear: string, score: Score)

  /** `best` and `best_score` of the inner loop. */
  datatype Best = Best(name: Option<string>, score: Score)

  /** The inner loop over `tns`: a candidate replaces the best only with a strictly higher score. */
  function BestMatch(ratio: (string, string) -> Score, sn: string, tns: seq<string>): (r: Best)
    ensures r.name.Some? <==> r.score > 0.0
  {
    if tns == [] then Best(None, 0.0)
    else
      var b := BestMatch(ratio, sn, tns[..|tns| - 1]);
      var sc := ratio(sn, tns[|tns| - 1]);
      if sc > b.score then Best(Some(tns[|tns| - 1]), sc) else b
  }

  /** `name` is the first of `tns` with the highest score against `sn`, and `score` is that score. */
  predicate IsFirstBest(ratio: (string, string) -> Score, sn: string, tns: seq<string>, name: string, score: real) {
    && (forall k :: 0 <= k < |tns| ==> ratio(sn, tns[k]) <= score)
    && exists k :: 0 <= k < |tns| && tns[k] == name && ratio(sn, name) == score &&
         forall j :: 0 <= j < k ==> ratio(sn, tns[j]) < score
  }

  /**
   * The inner loop finds the first target name with the maximal score; the
   * score stays 0.0, with no name, only when every score is 0.0.
   */
  lemma {:induction false} BestMatchIsFirstMax(ratio: (string, string) -> Score, sn: string, tns: seq<string>)
    ensures var b := BestMatch(ratio, sn, tns);
      b.name.Some? ==> IsFirstBest(ratio, sn, tns, b.name.value, b.score)
    ensures var b := BestMatch(ratio, sn, tns);
      b.name.None? ==> forall k :: 0 <= k < |tns| ==> ratio(sn, tns[k]) == 0.0
  {
    if tns != [] {
      var n := |tns| - 1;
      var prev := tns[..n];
      BestMatchIsFirstMax(ratio, sn, prev);
      var b := BestMatch(ratio, sn, prev);
      assert forall k :: 0 <= k < n ==> tns[k] == prev[k];
      if ratio(sn, tns[n]) > b.score {
        assert forall j :: 0 <= j < n ==> ratio(sn, tns[j]) <= b.score by {
          if b.name.Some? {
            assert forall j :: 0 <= j < n ==> ratio(sn, prev[j]) <= b.score;
          }
        }
      } else if b.name.Some? {
        var k :| 0 <= k < n && prev[k] == b.name.value && ratio(sn, b.name.value) == b.score &&
          forall j :: 0 <= j < k ==> ratio(sn, prev[j]) < b.score;
        assert tns[k] == b.name.value;
      }
    }
  }

  /** The outer loop of `name_typos` over the first `|srcNames|` source names. */
  function TyposOf(ratio: (string, string) -> Score, tgt: string, srcNames: seq<string>, tgtNames: seq<string>): seq<Typo> {
    if srcNames == [] then []
    else
      var out := TyposOf(ratio, tgt, srcNames[..|srcNames| - 1], tgtNames);
      var sn := srcNames[|srcNames| - 1];
      if Contains(tgt, sn) then out
      else
        var b := BestMatch(ratio, sn, tgtNames);
        if b.score >= 80.0 then out + [Typo(sn, b.name.value, b.score)] else out
  }

  /**
   * `name_typos(src, tgt)`, with `ratio` standing for `fuzz.ratio`: the
   * source names not found verbatim in the target, each with the closest
   * target name when its score reaches 80.
   */
  method NameTypos(u: CharTable, ratio: (string, string) -> Score, src: string, tgt: string) returns (out: seq<Typo>)
    ensures out == TyposOf(ratio, tgt, NameCandidates(u, src), NameCandidates(u, tgt))
  {
    var srcNames := ExtractNameSpans(u, src);
    var tgtNames := ExtractNameSpans(u, tgt);
    out := [];
    for i := 0 to |srcNames|
      invariant out == TyposOf(ratio, tgt, srcNames[..i], tgtNames)
    {
      assert srcNames[..i + 1][..i] == srcNames[..i];
      var sn := srcNames[i];
      if Contains(tgt, sn) {
        continue;
      }
      var best, bestScore := BestNear(ratio, sn, tgtNames);
      if bestScore >= 80.0 {
        out := out + [Typo(sn, best.value, bestScore)];
      }
    }
    assert srcNames[..|srcNames|] == srcNames;
  }

  /** The inner loop of `name_typos`: the first target name scoring highest against `sn`. */
  method BestNear(ratio: (string, string) -> Score, sn: string, tgtNames: seq<string>) returns (best: Option<string>, bestScore: Score)
    ensures Best(best, bestScore) == BestMatch(ratio, sn, tgtNames)
  {
    best, bestScore := None, 0.0;
    for j := 0 to |tgtNames|
      invariant Best(best, bestScore) == BestMatch(ratio, sn, tgtNames[..j])
    {
      assert tgtNames[..j + 1][..j] == tgtNames[..j];
      var sc := ratio(sn, tgtNames[j]);
      if sc > bestScore {
        best, bestScore := Some(tgtNames[j]), sc;
      }
    }
    assert tgtNames[..|tgtNames|] == tgtNames;
  }

  /**
   * Every report names a source name absent from the target text, scored
   * at least 80 against the first best-scoring target name; and a source
   * name is reported exactly when it is absent from the target and its best
   * score reaches 80.
   */
  lemma {:induction false} TyposSound(ratio: (string, string) -> Score, tgt: string, srcNames: seq<string>, tgtNames: seq<string>)
    ensures forall t :: t in TyposOf(ratio, tgt, srcNames, tgtNames) ==>
      && t.sourceName in srcNames && !Contains(tgt, t.sourceName) && t.score >= 80.0
      && IsFirstBest(ratio, t.sourceName, tgtNames, t.targetNear, t.score)
    ensures forall sn :: sn in srcNames ==>
      ((exists t :: t in TyposOf(ratio, tgt, srcNames, tgtNames) && t.sourceName == sn) <==>
        !Contains(tgt, sn) && BestMatch(ratio, sn, tgtNames).score >= 80.0)
  {
    if srcNames != [] {
      var n := |srcNames| - 1;
      var prev := srcNames[..n];
      var sn := srcNames[n];
      assert srcNames == prev + [sn];
      TyposSound(ratio, tgt, prev, tgtNames);
      BestMatchIsFirstMax(ratio, sn, tgtNames);
      var b := BestMatch(ratio, sn, tgtNames);
      if !Contains(tgt, sn) && b.score >= 80.0 {
        assert TyposOf(ratio, tgt, srcNames, tgtNames) == TyposOf(ratio, tgt, prev, tgtNames) + [Typo(sn, b.name.value, b.score)];
      }
    }
  }
}
