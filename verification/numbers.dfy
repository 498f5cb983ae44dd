/**
 * `extract_numbers_dates` (services/checks.py): the numerals NUM_RE finds
 * in the digit-normalised text, minus those that touch an accepted date
 * span, each in its canonical form, and the ISO dates of the date filter.
 */
module Numbers {
  import opened Text
  import opened Digits
  import opened Amounts
  import opened Dates

  // ---- What NUM_RE accepts, stated declaratively ----

  /** `[.,\s ]`: what may stand between digit groups. */
  predicate IsGroupSeparator(c: char) {
    c in ".," || IsSpace(c)
  }

  /** `(?:[.,]\d+)?` spans `[y, e)`: nothing, or `.` or `,` followed by one or more Nd characters. */
  predicate FractionAt(u: CharTable, s: string, y: nat, e: nat) {
    e == y || (y < |s| && s[y] in ".," && y + 2 <= e && DigitsAt(u, s, y + 1, e))
  }

  /** One group `[.,\s ]\d{3}` at `x`. */
  predicate GroupAt(u: CharTable, s: string, x: nat) {
    x + 4 <= |s| && IsGroupSeparator(s[x]) && DigitsAt(u, s, x + 1, x + 4)
  }

  /** `g` groups one after another from `x`. */
  predicate GroupsAt(u: CharTable, s: string, x: nat, g: nat)
    decreases g
  {
    g == 0 || (GroupAt(u, s, x) && GroupsAt(u, s, x + 4, g - 1))
  }

  /** `(?:[.,\s ]\d{3})*(?:[.,]\d+)?` spans `[x, e)` with `g` groups. */
  predicate GroupedEndAt(u: CharTable, s: string, x: nat, g: nat, e: nat) {
    GroupsAt(u, s, x, g) && FractionAt(u, s, x + 4 * g, e)
  }

  /** The first alternative `\d{1,3}(?:[.,\s ]\d{3})*(?:[.,]\d+)?` spans `[q, e)`, its lead ending at `x`. */
  predicate GroupedFormAt(u: CharTable, s: string, q: nat, x: nat, g: nat, e: nat) {
    q < x <= q + 3 && DigitsAt(u, s, q, x) && GroupedEndAt(u, s, x, g, e)
  }

  /** The second alternative `\d+(?:[.,]\d+)?` spans `[q, e)`, its digits ending at `x`. */
  predicate PlainFormAt(u: CharTable, s: string, q: nat, x: nat, e: nat) {
    q < x && DigitsAt(u, s, q, x) && FractionAt(u, s, x, e)
  }

  /** `(?:[.,\s ]\d{3})*(?:[.,]\d+)?` spans `[x, e)` with at most `g` groups. */
  ghost predicate GroupedEndWithin(u: CharTable, s: string, x: nat, g: nat, e: nat) {
    exists h: nat :: h <= g && GroupedEndAt(u, s, x, h, e)
  }

  /** The first alternative spans `[q, e)`. */
  ghost predicate GroupedShapeAt(u: CharTable, s: string, q: nat, e: nat) {
    exists x: nat, g: nat :: GroupedFormAt(u, s, q, x, g, e)
  }

  /** The second alternative spans `[q, e)`. */
  ghost predicate PlainShapeAt(u: CharTable, s: string, q: nat, e: nat) {
    exists x: nat :: PlainFormAt(u, s, q, x, e)
  }

  /** Either alternative spans `[q, e)`. */
  ghost predicate UnsignedAt(u: CharTable, s: string, q: nat, e: nat) {
    GroupedShapeAt(u, s, q, e) || PlainShapeAt(u, s, q, e)
  }

  /** `[+-]?` and then either alternative span `[p, e)`. */
  ghost predicate NumeralShapeAt(u: CharTable, s: string, p: nat, e: nat) {
    UnsignedAt(u, s, p, e) || (p < |s| && s[p] in "+-" && UnsignedAt(u, s, p + 1, e))
  }

  // ---- NUM_RE, tried the way a backtracking engine tries it ----

  /** `hi, hi - 1, ..., lo`; empty when `hi < lo`. */
  function Countdown(hi: nat, lo: nat): (r: seq<nat>)
    ensures |r| == if hi >= lo then hi - lo + 1 else 0
    ensures forall i :: 0 <= i < |r| ==> r[i] == hi - i
    decreases hi
  {
    if hi < lo then [] else if hi == lo then [hi] else [hi] + Countdown(hi - 1, lo)
  }

  /**
   * The ends `(?:[.,]\d+)?` can reach from `y`, in the order they are tried:
   * the longest fraction first, down to one digit, then no fraction at all.
   */
  function FractionEnds(u: CharTable, s: string, y: nat): (r: seq<nat>)
    requires y <= |s|
    ensures r != [] && r[|r| - 1] == y
    ensures forall i :: 0 <= i < |r| ==> y <= r[i] <= |s| && FractionAt(u, s, y, r[i])
    ensures forall e: nat :: FractionAt(u, s, y, e) ==> e in r
    ensures forall i :: 0 < i < |r| ==> r[i] < r[i - 1]
  {
    if y < |s| && s[y] in ".," && DigitRun(u, s, y + 1) >= 1 then
      var hi := y + 1 + DigitRun(u, s, y + 1);
      FractionReach(u, s, y, hi);
      Countdown(hi, y + 2) + [y]
    else
      FractionNone(u, s, y);
      [y]
  }

  /** The fractions from `y` are the ends between `y + 2` and the end of the digit run. */
  lemma FractionReach(u: CharTable, s: string, y: nat, hi: nat)
    requires y < |s| && s[y] in ".," && DigitRun(u, s, y + 1) >= 1 && hi == y + 1 + DigitRun(u, s, y + 1)
    ensures forall e: nat :: y + 2 <= e <= hi ==> FractionAt(u, s, y, e) && e in Countdown(hi, y + 2)
    ensures forall e: nat :: FractionAt(u, s, y, e) ==> e == y || y + 2 <= e <= hi
  {
    forall e: nat | FractionAt(u, s, y, e) && e != y
      ensures e <= hi
    {
      DigitsWithinRun(u, s, y + 1, e);
    }
    forall e: nat | y + 2 <= e <= hi
      ensures FractionAt(u, s, y, e) && e in Countdown(hi, y + 2)
    {
      assert Countdown(hi, y + 2)[hi - e] == e;
    }
  }

  /** Without a decimal point and a digit after it there is no fraction. */
  lemma FractionNone(u: CharTable, s: string, y: nat)
    requires y <= |s|
    requires !(y < |s| && s[y] in ".," && DigitRun(u, s, y + 1) >= 1)
    ensures forall e: nat :: FractionAt(u, s, y, e) ==> e == y
  {
    forall e: nat | FractionAt(u, s, y, e) && e != y
      ensures false
    {
      DigitsWithinRun(u, s, y + 1, e);
    }
  }

  /** A stretch of Nd characters from `i` lies within the run `DigitRun` measures. */
  lemma {:induction false} DigitsWithinRun(u: CharTable, s: string, i: nat, j: nat)
    requires DigitsAt(u, s, i, j)
    ensures j <= i + DigitRun(u, s, i)
    decreases j - i
  {
    if i < j {
      DigitsWithinRun(u, s, i + 1, j);
    }
  }

  /** How many groups `(?:[.,\s ]\d{3})*` takes from `x` when it is greedy: as many as follow. */
  function GroupCount(u: CharTable, s: string, x: nat): (g: nat)
    requires x <= |s|
    ensures x + 4 * g <= |s|
    ensures GroupsAt(u, s, x, g) && !GroupAt(u, s, x + 4 * g)
    ensures forall h: nat :: GroupsAt(u, s, x, h) ==> h <= g
    decreases |s| - x
  {
    if GroupAt(u, s, x) then 1 + GroupCount(u, s, x + 4)
    else 0
  }

  /** Fewer groups than a run of groups are a run of groups too. */
  lemma {:induction false} GroupsPrefix(u: CharTable, s: string, x: nat, g: nat, h: nat)
    requires h <= g
    ensures GroupsAt(u, s, x, g) ==> GroupsAt(u, s, x, h)
    decreases h
  {
    if h > 0 && GroupsAt(u, s, x, g) {
      GroupsPrefix(u, s, x + 4, g - 1, h - 1);
    }
  }

  /** `g` groups from `x`, then fewer down to none, each followed by the fraction's choices. */
  function GroupEnds(u: CharTable, s: string, x: nat, g: nat): (r: seq<nat>)
    requires x + 4 * g <= |s|
    ensures forall i :: 0 <= i < |r| ==> x <= r[i] <= |s|
    ensures GroupsAt(u, s, x, g) ==>
      forall i :: 0 <= i < |r| ==> GroupedEndWithin(u, s, x, g, r[i])
    ensures forall h: nat, e: nat :: h <= g && GroupedEndAt(u, s, x, h, e) ==> e in r
  {
    if g == 0 then
      var a := FractionEnds(u, s, x);
      GroupEndsBase(u, s, x, a);
      a
    else
      var a := FractionEnds(u, s, x + 4 * g);
      var b := GroupEnds(u, s, x, g - 1);
      GroupEndsCons(u, s, x, g, a, b);
      a + b
  }

  /** With no groups the ends are the fraction's. */
  lemma GroupEndsBase(u: CharTable, s: string, x: nat, a: seq<nat>)
    requires x <= |s| && a == FractionEnds(u, s, x)
    ensures forall i :: 0 <= i < |a| ==> GroupedEndWithin(u, s, x, 0, a[i])
  {
    forall i | 0 <= i < |a|
      ensures GroupedEndWithin(u, s, x, 0, a[i])
    {
      assert GroupedEndAt(u, s, x, 0, a[i]);
    }
  }

  /** The ends with `g` groups, put before those with fewer, add exactly the grouped ends with `g` groups. */
  lemma GroupEndsCons(u: CharTable, s: string, x: nat, g: nat, a: seq<nat>, b: seq<nat>)
    requires 0 < g && x + 4 * g <= |s| && a == FractionEnds(u, s, x + 4 * g)
    requires GroupsAt(u, s, x, g - 1) ==>
      forall i :: 0 <= i < |b| ==> GroupedEndWithin(u, s, x, g - 1, b[i])
    requires forall h: nat, e: nat :: h <= g - 1 && GroupedEndAt(u, s, x, h, e) ==> e in b
    ensures GroupsAt(u, s, x, g) ==>
      forall i :: 0 <= i < |a + b| ==> GroupedEndWithin(u, s, x, g, (a + b)[i])
    ensures forall h: nat, e: nat :: h <= g && GroupedEndAt(u, s, x, h, e) ==> e in a + b
  {
    GroupsPrefix(u, s, x, g, g - 1);
    if GroupsAt(u, s, x, g) {
      forall i | 0 <= i < |a + b|
        ensures GroupedEndWithin(u, s, x, g, (a + b)[i])
      {
        if i < |a| {
          assert GroupedEndAt(u, s, x, g, a[i]);
        } else {
          assert (a + b)[i] == b[i - |a|];
        }
      }
    }
    forall h: nat, e: nat | h <= g && GroupedEndAt(u, s, x, h, e)
      ensures e in a + b
    {
      if h == g {
        assert e in a;
      } else {
        assert e in b;
      }
    }
  }

  /** The first alternative: a lead of `lead` digits, then of fewer down to one, each with its groups. */
  function LeadEnds(u: CharTable, s: string, q: nat, lead: nat): (r: seq<nat>)
    requires q + lead <= |s|
    ensures forall i :: 0 <= i < |r| ==> q < r[i] <= |s|
    ensures DigitsAt(u, s, q, q + lead) && lead <= 3 ==>
      forall i :: 0 <= i < |r| ==> GroupedShapeAt(u, s, q, r[i])
    ensures forall x: nat, g: nat, e: nat :: x <= q + lead && GroupedFormAt(u, s, q, x, g, e) ==> e in r
  {
    if lead == 0 then []
    else
      var y := q + lead;
      var a := GroupEnds(u, s, y, GroupCount(u, s, y));
      var b := LeadEnds(u, s, q, lead - 1);
      EndsWithin(q, y, |s|, a, b);
      LeadEndsSound(u, s, q, lead, y, a, b);
      GroupedEndsListed(u, s, y, a);
      LeadEndsComplete(u, s, q, lead, y, a, b);
      a + b
  }

  /** The ends of the lead of `lead` digits, put before those of shorter leads, are forms of the first alternative. */
  lemma LeadEndsSound(u: CharTable, s: string, q: nat, lead: nat, y: nat, a: seq<nat>, b: seq<nat>)
    requires 0 < lead && y == q + lead && y <= |s| && a == GroupEnds(u, s, y, GroupCount(u, s, y))
    requires DigitsAt(u, s, q, q + (lead - 1)) && lead - 1 <= 3 ==>
      forall i :: 0 <= i < |b| ==> GroupedShapeAt(u, s, q, b[i])
    ensures DigitsAt(u, s, q, q + lead) && lead <= 3 ==>
      forall i :: 0 <= i < |a + b| ==> GroupedShapeAt(u, s, q, (a + b)[i])
  {
    if DigitsAt(u, s, q, y) && lead <= 3 {
      assert DigitsAt(u, s, q, y - 1);
      forall i | 0 <= i < |a + b|
        ensures GroupedShapeAt(u, s, q, (a + b)[i])
      {
        if i < |a| {
          assert GroupedEndWithin(u, s, y, GroupCount(u, s, y), a[i]);
          var h: nat :| h <= GroupCount(u, s, y) && GroupedEndAt(u, s, y, h, a[i]);
          assert GroupedFormAt(u, s, q, y, h, a[i]);
        } else {
          assert (a + b)[i] == b[i - |a|];
        }
      }
    }
  }

  /** Ends past `y` put before ends past `q < y`, all within `n`, are all past `q` and within `n`. */
  lemma EndsWithin(q: nat, y: nat, n: nat, a: seq<nat>, b: seq<nat>)
    requires q < y
    requires forall i :: 0 <= i < |a| ==> y <= a[i] <= n
    requires forall i :: 0 <= i < |b| ==> q < b[i] <= n
    ensures forall i :: 0 <= i < |a + b| ==> q < (a + b)[i] <= n
  {
    forall i | 0 <= i < |a + b|
      ensures q < (a + b)[i] <= n
    {
      if |a| <= i {
        assert (a + b)[i] == b[i - |a|];
      }
    }
  }

  /** Every form of the first alternative with a lead of at most `lead` digits is listed. */
  lemma LeadEndsComplete(u: CharTable, s: string, q: nat, lead: nat, y: nat, a: seq<nat>, b: seq<nat>)
    requires 0 < lead && y == q + lead
    requires forall g: nat, e: nat :: GroupedEndAt(u, s, y, g, e) ==> e in a
    requires forall x: nat, g: nat, e: nat :: x <= q + (lead - 1) && GroupedFormAt(u, s, q, x, g, e) ==> e in b
    ensures forall x: nat, g: nat, e: nat :: x <= q + lead && GroupedFormAt(u, s, q, x, g, e) ==> e in a + b
  {
    forall x: nat, g: nat, e: nat | x <= q + lead && GroupedFormAt(u, s, q, x, g, e)
      ensures e in a + b
    {
      if x == y {
        assert GroupedEndAt(u, s, y, g, e);
        assert e in a;
      } else {
        assert e in b;
      }
    }
  }

  /** Every grouped end after a lead is listed among the ends with the greedy number of groups or fewer. */
  lemma GroupedEndsListed(u: CharTable, s: string, y: nat, a: seq<nat>)
    requires y <= |s| && a == GroupEnds(u, s, y, GroupCount(u, s, y))
    ensures forall g: nat, e: nat :: GroupedEndAt(u, s, y, g, e) ==> e in a
  {
    forall g: nat, e: nat | GroupedEndAt(u, s, y, g, e)
      ensures e in a
    {
      assert g <= GroupCount(u, s, y);
    }
  }

  /** The second alternative `\d+(?:[.,]\d+)?`: a run of `n` digits, then of fewer down to one. */
  function RunEnds(u: CharTable, s: string, q: nat, n: nat): (r: seq<nat>)
    requires q + n <= |s|
    ensures forall i :: 0 <= i < |r| ==> q < r[i] <= |s|
    ensures DigitsAt(u, s, q, q + n) ==> forall i :: 0 <= i < |r| ==> PlainShapeAt(u, s, q, r[i])
    ensures forall x: nat, e: nat :: x <= q + n && PlainFormAt(u, s, q, x, e) ==> e in r
  {
    if n == 0 then []
    else
      var a := FractionEnds(u, s, q + n);
      var b := RunEnds(u, s, q, n - 1);
      RunEndsCons(u, s, q, n, a, b);
      a + b
  }

  /** The ends of a run of `n` digits, put before those of shorter runs, add exactly the forms with that run. */
  lemma RunEndsCons(u: CharTable, s: string, q: nat, n: nat, a: seq<nat>, b: seq<nat>)
    requires 0 < n && q + n <= |s| && a == FractionEnds(u, s, q + n)
    requires DigitsAt(u, s, q, q + n - 1) ==> forall i :: 0 <= i < |b| ==> PlainShapeAt(u, s, q, b[i])
    requires forall x: nat, e: nat :: x <= q + n - 1 && PlainFormAt(u, s, q, x, e) ==> e in b
    ensures DigitsAt(u, s, q, q + n) ==>
      forall i :: 0 <= i < |a + b| ==> PlainShapeAt(u, s, q, (a + b)[i])
    ensures forall x: nat, e: nat :: x <= q + n && PlainFormAt(u, s, q, x, e) ==> e in a + b
  {
    var y := q + n;
    if DigitsAt(u, s, q, y) {
      assert DigitsAt(u, s, q, y - 1);
      forall i | 0 <= i < |a + b|
        ensures PlainShapeAt(u, s, q, (a + b)[i])
      {
        if i < |a| {
          assert PlainFormAt(u, s, q, y, a[i]);
        } else {
          assert (a + b)[i] == b[i - |a|];
        }
      }
    }
    forall x: nat, e: nat | x <= y && PlainFormAt(u, s, q, x, e)
      ensures e in a + b
    {
      if x == y {
        assert e in a;
      } else {
        assert e in b;
      }
    }
  }

  /**
   * Every end the unsigned part of NUM_RE can reach from `q`, in the order
   * the engine tries them: exactly the ends of the two alternatives.
   */
  function NumeralEnds(u: CharTable, s: string, q: nat): (r: seq<nat>)
    requires q <= |s|
    ensures forall i :: 0 <= i < |r| ==> q < r[i] <= |s| && UnsignedAt(u, s, q, r[i])
    ensures forall e: nat :: UnsignedAt(u, s, q, e) ==> e in r
    ensures r != [] ==> q < |s| && s[q] in u.digit
  {
    var run := DigitRun(u, s, q);
    var lead := if run < 3 then run else 3;
    NumeralEndsExact(u, s, q, run, lead);
    LeadEnds(u, s, q, lead) + RunEnds(u, s, q, run)
  }

  /** The two alternatives from `q` reach exactly the ends of the unsigned numeral shapes. */
  lemma NumeralEndsExact(u: CharTable, s: string, q: nat, run: nat, lead: nat)
    requires q <= |s| && run == DigitRun(u, s, q) && lead == if run < 3 then run else 3
    ensures q + run <= |s|
    ensures forall e: nat :: e in LeadEnds(u, s, q, lead) + RunEnds(u, s, q, run) ==> UnsignedAt(u, s, q, e)
    ensures forall e: nat :: UnsignedAt(u, s, q, e) ==> e in LeadEnds(u, s, q, lead) + RunEnds(u, s, q, run)
  {
    var a := LeadEnds(u, s, q, lead);
    var b := RunEnds(u, s, q, run);
    assert DigitsAt(u, s, q, q + lead);
    forall e: nat | e in a + b
      ensures UnsignedAt(u, s, q, e)
    {
      if e in a {
        var i :| 0 <= i < |a| && a[i] == e;
        var x: nat, g: nat :| GroupedFormAt(u, s, q, x, g, e);
      } else {
        var i :| 0 <= i < |b| && b[i] == e;
        var x: nat :| PlainFormAt(u, s, q, x, e);
      }
    }
    forall e: nat | UnsignedAt(u, s, q, e)
      ensures e in a + b
    {
      if GroupedShapeAt(u, s, q, e) {
        var x: nat, g: nat :| GroupedFormAt(u, s, q, x, g, e);
        DigitsWithinRun(u, s, q, x);
        assert e in a;
      } else {
        var x: nat :| PlainFormAt(u, s, q, x, e);
        DigitsWithinRun(u, s, q, x);
        assert e in b;
      }
    }
  }

  /** `(?!\w)` at `e`. */
  predicate NoWordAt(u: CharTable, s: string, e: nat) {
    e >= |s| || s[e] !in u.word
  }

  /** The first of `ends` where the look-ahead holds. */
  function FirstBoundary(u: CharTable, s: string, ends: seq<nat>): (r: Option<nat>)
    ensures r.Some? ==> r.value in ends && NoWordAt(u, s, r.value)
    ensures r.None? ==> forall i :: 0 <= i < |ends| ==> !NoWordAt(u, s, ends[i])
  {
    if ends == [] then None
    else if NoWordAt(u, s, ends[0]) then Some(ends[0])
    else FirstBoundary(u, s, ends[1..])
  }

  /** A NUM_RE match `[start, end)`: bounded by non-word characters, a digit first or after the sign. */
  predicate IsNumeralMatch(u: CharTable, s: string, m: Span) {
    && m.start < m.end <= |s|
    && (m.start == 0 || s[m.start - 1] !in u.word)
    && NoWordAt(u, s, m.end)
    && (s[m.start] in u.digit || (s[m.start] in "+-" && m.start + 1 < m.end && s[m.start + 1] in u.digit))
  }

  /**
   * The end of the NUM_RE match that starts at `p`, if any: the look-behind,
   * then `[+-]?` (with the sign first, then without it), then the first
   * reachable end where the look-ahead holds. There is one exactly when the
   * look-behind holds and some end of a numeral shape at `p` is followed by
   * no word character.
   */
  function MatchEnd(u: CharTable, s: string, p: nat): (r: Option<nat>)
    requires p <= |s|
    ensures r.Some? ==> IsNumeralMatch(u, s, Span(p, r.value)) && NumeralShapeAt(u, s, p, r.value)
    ensures r.None? <==>
      (p > 0 && s[p - 1] in u.word) || forall e: nat :: NumeralShapeAt(u, s, p, e) ==> !NoWordAt(u, s, e)
  {
    if p > 0 && s[p - 1] in u.word then None
    else if p < |s| && s[p] in "+-" then
      SignedFirst(u, s, p);
      var signed := FirstBoundary(u, s, NumeralEnds(u, s, p + 1));
      if signed.Some? then signed else FirstBoundary(u, s, NumeralEnds(u, s, p))
    else
      UnsignedFirst(u, s, p);
      FirstBoundary(u, s, NumeralEnds(u, s, p))
  }

  /** With a sign, the end tried first with the sign, else without it, is a NUM_RE match; there is none only when no numeral end passes the look-ahead. */
  lemma SignedFirst(u: CharTable, s: string, p: nat)
    requires p < |s| && s[p] in "+-" && !(p > 0 && s[p - 1] in u.word)
    ensures var a := FirstBoundary(u, s, NumeralEnds(u, s, p + 1));
      var r := if a.Some? then a else FirstBoundary(u, s, NumeralEnds(u, s, p));
      && (r.Some? ==> IsNumeralMatch(u, s, Span(p, r.value)) && NumeralShapeAt(u, s, p, r.value))
      && (r.None? <==> forall e: nat :: NumeralShapeAt(u, s, p, e) ==> !NoWordAt(u, s, e))
  {
    FirstNumeralEnd(u, s, p + 1);
    FirstNumeralEnd(u, s, p);
    var a := FirstBoundary(u, s, NumeralEnds(u, s, p + 1));
    var b := FirstBoundary(u, s, NumeralEnds(u, s, p));
    if a.Some? {
      assert NumeralShapeAt(u, s, p, a.value);
    } else if b.Some? {
      assert NumeralShapeAt(u, s, p, b.value);
    } else {
      forall e: nat | NumeralShapeAt(u, s, p, e)
        ensures !NoWordAt(u, s, e)
      {
      }
    }
  }

  /** Without a sign, the first end the look-ahead accepts is a NUM_RE match; there is none only when no numeral end passes the look-ahead. */
  lemma UnsignedFirst(u: CharTable, s: string, p: nat)
    requires p <= |s| && !(p < |s| && s[p] in "+-") && !(p > 0 && s[p - 1] in u.word)
    ensures var r := FirstBoundary(u, s, NumeralEnds(u, s, p));
      && (r.Some? ==> IsNumeralMatch(u, s, Span(p, r.value)) && NumeralShapeAt(u, s, p, r.value))
      && (r.None? <==> forall e: nat :: NumeralShapeAt(u, s, p, e) ==> !NoWordAt(u, s, e))
  {
    FirstNumeralEnd(u, s, p);
  }

  /** The first numeral end from `q` that the look-ahead accepts is an unsigned shape after a digit; there is none only when no unsigned shape passes. */
  lemma FirstNumeralEnd(u: CharTable, s: string, q: nat)
    requires q <= |s|
    ensures var r := FirstBoundary(u, s, NumeralEnds(u, s, q));
      && (r.Some? ==> q < r.value <= |s| && NoWordAt(u, s, r.value) && UnsignedAt(u, s, q, r.value) && s[q] in u.digit)
      && (r.None? <==> forall e: nat :: UnsignedAt(u, s, q, e) ==> !NoWordAt(u, s, e))
  {
    var ends := NumeralEnds(u, s, q);
    var r := FirstBoundary(u, s, ends);
    if r.Some? {
      var i :| 0 <= i < |ends| && ends[i] == r.value;
    } else {
      forall e: nat | UnsignedAt(u, s, q, e)
        ensures !NoWordAt(u, s, e)
      {
        var i :| 0 <= i < |ends| && ends[i] == e;
      }
    }
  }

  /** No NUM_RE match starts in `[lo, hi)`. */
  predicate NoMatchBetween(u: CharTable, s: string, lo: nat, hi: nat) {
    forall i: nat :: lo <= i < hi && i <= |s| ==> MatchEnd(u, s, i).None?
  }

  /**
   * `r` is what `finditer` yields from `p`: each match is found where the
   * search stands, the search resumes at its end, and no match starts before
   * the first one, between two of them or after the last.
   */
  predicate FindsFrom(u: CharTable, s: string, p: nat, r: seq<Span>) {
    && (forall k :: 0 <= k < |r| ==>
         p <= r[k].start && IsNumeralMatch(u, s, r[k]) && MatchEnd(u, s, r[k].start) == Some(r[k].end))
    && (forall k :: 0 < k < |r| ==> r[k - 1].end <= r[k].start && NoMatchBetween(u, s, r[k - 1].end, r[k].start))
    && NoMatchBetween(u, s, p, if r == [] then |s| else r[0].start)
    && (r != [] ==> NoMatchBetween(u, s, r[|r| - 1].end, |s|))
  }

  /** `NUM_RE.finditer(s)` from `p`: the leftmost match, then the search resumes at its end. */
  function Matches(u: CharTable, s: string, p: nat): (r: seq<Span>)
    requires p <= |s|
    ensures FindsFrom(u, s, p, r)
    decreases |s| - p
  {
    if p == |s| then []
    else match MatchEnd(u, s, p)
      case Some(e) =>
        var rest := Matches(u, s, e);
        MatchesCons(u, s, p, e, rest);
        [Span(p, e)] + rest
      case None =>
        var rest := Matches(u, s, p + 1);
        MatchesSkip(u, s, p, rest);
        rest
  }

  /** A match found at `p`, followed by what the search finds from its end. */
  lemma MatchesCons(u: CharTable, s: string, p: nat, e: nat, rest: seq<Span>)
    requires p < |s| && MatchEnd(u, s, p) == Some(e)
    requires FindsFrom(u, s, e, rest)
    ensures FindsFrom(u, s, p, [Span(p, e)] + rest)
  {
    var r := [Span(p, e)] + rest;
    forall k | 0 <= k < |r|
      ensures p <= r[k].start && IsNumeralMatch(u, s, r[k]) && MatchEnd(u, s, r[k].start) == Some(r[k].end)
    {
      if k > 0 {
        assert r[k] == rest[k - 1];
      }
    }
    forall k | 0 < k < |r|
      ensures r[k - 1].end <= r[k].start && NoMatchBetween(u, s, r[k - 1].end, r[k].start)
    {
      if k > 1 {
        assert r[k - 1] == rest[k - 2] && r[k] == rest[k - 1];
      } else {
        assert r[1] == rest[0];
      }
    }
    if rest != [] {
      assert r[|r| - 1] == rest[|rest| - 1];
    }
  }

  /** No match at `p`: the search goes on from `p + 1`. */
  lemma MatchesSkip(u: CharTable, s: string, p: nat, rest: seq<Span>)
    requires p < |s| && MatchEnd(u, s, p).None?
    requires FindsFrom(u, s, p + 1, rest)
    ensures FindsFrom(u, s, p, rest)
  {
  }

  /** Spans that each end before the next one starts are pairwise apart. */
  lemma {:induction false} ChainApart(r: seq<Span>)
    requires forall k :: 0 <= k < |r| ==> r[k].start <= r[k].end
    requires forall k :: 0 < k < |r| ==> r[k - 1].end <= r[k].start
    ensures forall j, k :: 0 <= j < k < |r| ==> r[j].end <= r[k].start
  {
    if r != [] {
      var n := |r| - 1;
      ChainApart(r[..n]);
      forall j, k | 0 <= j < k < |r|
        ensures r[j].end <= r[k].start
      {
        if k < n {
          assert r[j] == r[..n][j] && r[k] == r[..n][k];
        } else if j < n - 1 {
          assert r[j] == r[..n][j] && r[n - 1] == r[..n][n - 1];
        }
      }
    }
  }

  /** The matches do not overlap and come in text order. */
  lemma MatchesInOrder(u: CharTable, s: string, p: nat)
    requires p <= |s|
    ensures forall j, k :: 0 <= j < k < |Matches(u, s, p)| ==> Matches(u, s, p)[j].end <= Matches(u, s, p)[k].start
  {
    ChainApart(Matches(u, s, p));
  }

  // ---- `extract_numbers_dates` ----

  /** `in_date_span(a, b)`: `[a, b)` overlaps one of the accepted date spans. */
  predicate InDateSpan(spans: seq<Span>, a: nat, b: nat) {
    exists k | 0 <= k < |spans| :: !(b <= spans[k].start || a >= spans[k].end)
  }

  /** Each span ends before any later one starts. */
  predicate InOrder(r: seq<Span>) {
    forall j, k :: 0 <= j < k < |r| ==> r[j].end <= r[k].start
  }

  /** The matches whose span touches no date span: all of them, and in their order. */
  function OutsideDates(ms: seq<Span>, spans: seq<Span>): (r: seq<Span>)
    ensures forall k :: 0 <= k < |r| ==> r[k] in ms && !InDateSpan(spans, r[k].start, r[k].end)
    ensures forall k :: 0 <= k < |ms| && !InDateSpan(spans, ms[k].start, ms[k].end) ==> ms[k] in r
    ensures InOrder(ms) ==> InOrder(r)
  {
    if ms == [] then []
    else
      var rest := OutsideDates(ms[1..], spans);
      OutsideDatesKeepsAll(ms, spans, rest);
      OutsideDatesKeepsOrder(ms, spans, rest);
      (if InDateSpan(spans, ms[0].start, ms[0].end) then [] else [ms[0]]) + rest
  }

  /** Keeping or dropping the first match, then filtering the others, misses nothing. */
  lemma OutsideDatesKeepsAll(ms: seq<Span>, spans: seq<Span>, rest: seq<Span>)
    requires ms != []
    requires forall k :: 1 <= k < |ms| && !InDateSpan(spans, ms[k].start, ms[k].end) ==> ms[k] in rest
    ensures var r := (if InDateSpan(spans, ms[0].start, ms[0].end) then [] else [ms[0]]) + rest;
      forall k :: 0 <= k < |ms| && !InDateSpan(spans, ms[k].start, ms[k].end) ==> ms[k] in r
  {
  }

  /** Keeping or dropping the first match, then filtering the others, keeps matches in order. */
  lemma OutsideDatesKeepsOrder(ms: seq<Span>, spans: seq<Span>, rest: seq<Span>)
    requires ms != []
    requires forall k :: 0 <= k < |rest| ==> rest[k] in ms[1..]
    requires InOrder(ms[1..]) ==> InOrder(rest)
    ensures InOrder(ms) ==> InOrder((if InDateSpan(spans, ms[0].start, ms[0].end) then [] else [ms[0]]) + rest)
  {
    if InOrder(ms) {
      TailInOrder(ms);
      if !InDateSpan(spans, ms[0].start, ms[0].end) {
        HeadBeforeRest(ms, rest);
        ConsInOrder(ms[0], rest);
      } else {
        assert [] + rest == rest;
      }
    }
  }

  /** Dropping the first span keeps the order. */
  lemma TailInOrder(ms: seq<Span>)
    requires ms != [] && InOrder(ms)
    ensures InOrder(ms[1..])
  {
    forall j, k | 0 <= j < k < |ms[1..]|
      ensures ms[1..][j].end <= ms[1..][k].start
    {
      assert ms[1..][j] == ms[j + 1] && ms[1..][k] == ms[k + 1];
    }
  }

  /** In ordered spans the first ends before any later one starts. */
  lemma HeadBeforeRest(ms: seq<Span>, rest: seq<Span>)
    requires ms != [] && InOrder(ms)
    requires forall k :: 0 <= k < |rest| ==> rest[k] in ms[1..]
    ensures forall k :: 0 <= k < |rest| ==> ms[0].end <= rest[k].start
  {
    forall k | 0 <= k < |rest|
      ensures ms[0].end <= rest[k].start
    {
      var i :| 0 <= i < |ms[1..]| && ms[1..][i] == rest[k];
      assert ms[1..][i] == ms[i + 1];
    }
  }

  /** A span that ends before every span of an ordered list can be put in front of it. */
  lemma ConsInOrder(x: Span, rest: seq<Span>)
    requires InOrder(rest)
    requires forall k :: 0 <= k < |rest| ==> x.end <= rest[k].start
    ensures InOrder([x] + rest)
  {
    var r := [x] + rest;
    forall j, k | 0 <= j < k < |r|
      ensures r[j].end <= r[k].start
    {
      if j == 0 {
        assert r[k] == rest[k - 1];
      } else {
        assert r[j] == rest[j - 1] && r[k] == rest[k - 1];
      }
    }
  }

  /** `raw_nums`: the matched text of each span. */
  function MatchTexts(text: string, ms: seq<Span>): (r: seq<string>)
    requires forall k :: 0 <= k < |ms| ==> ms[k].start <= ms[k].end <= |text|
    ensures |r| == |ms| && forall k :: 0 <= k < |ms| ==> r[k] == text[ms[k].start..ms[k].end]
  {
    seq(|ms|, k requires 0 <= k < |ms| => text[ms[k].start..ms[k].end])
  }

  /** `(_normalize_amount(n) for n in raw_nums)`. */
  function AmountsOf(u: CharTable, raws: seq<string>): (r: seq<string>)
    ensures |r| == |raws| && forall k :: 0 <= k < |raws| ==> r[k] == NormalizeAmount(u, raws[k])
  {
    seq(|raws|, k requires 0 <= k < |raws| => NormalizeAmount(u, raws[k]))
  }

  /** `[x for x in xs if x]`: the non-empty strings of `xs`, in order. */
  function DropEmpty(xs: seq<string>): (r: seq<string>)
    ensures forall x :: x in r ==> x in xs && x != ""
    ensures (forall k :: 0 <= k < |xs| ==> xs[k] != "") ==> r == xs
  {
    if xs == [] then [] else (if xs[0] == "" then [] else [xs[0]]) + DropEmpty(xs[1..])
  }

  /** The two lists `extract_numbers_dates` returns. */
  datatype Extracted = Extracted(nums: seq<string>, dates: seq<string>)

  /**
   * The spans of the numerals `extract_numbers_dates` keeps in the normalised
   * text: exactly the NUM_RE matches outside the accepted date spans, in text order.
   */
  function KeptNumerals(u: CharTable, search: string -> seq<Candidate>, norm: string): (r: seq<Span>)
    ensures forall k :: 0 <= k < |r| ==> r[k] in Matches(u, norm, 0) && IsNumeralMatch(u, norm, r[k])
    ensures forall k :: 0 <= k < |r| ==> !InDateSpan(ScanDates(u, norm, search(norm)).spans, r[k].start, r[k].end)
    ensures forall m :: m in Matches(u, norm, 0) && !InDateSpan(ScanDates(u, norm, search(norm)).spans, m.start, m.end) ==> m in r
    ensures forall j, k :: 0 <= j < k < |r| ==> r[j].end <= r[k].start
  {
    MatchesInOrder(u, norm, 0);
    OutsideDates(Matches(u, norm, 0), ScanDates(u, norm, search(norm)).spans)
  }

  /**
   * `extract_numbers_dates(text)`, with `search` standing for what
   * `search_dates` returns for a text (empty when it returns nothing or raises).
   */
  function ExtractNumbersDates(u: CharTable, search: string -> seq<Candidate>, text: string): Extracted {
    var norm := DigitsNormalized(u, text);
    Extracted(DropEmpty(AmountsOf(u, MatchTexts(norm, KeptNumerals(u, search, norm)))), ScanDates(u, norm, search(norm)).isos)
  }

  /** Every number is a non-empty canonical amount and every date is `YYYY-MM-DD`. */
  lemma ExtractedShape(u: CharTable, search: string -> seq<Candidate>, text: string)
    ensures forall x :: x in ExtractNumbersDates(u, search, text).nums ==> x != "" && IsCanonicalShape(x)
    ensures forall i :: 0 <= i < |ExtractNumbersDates(u, search, text).dates| ==> IsIsoForm(ExtractNumbersDates(u, search, text).dates[i])
  {
    var norm := DigitsNormalized(u, text);
    ScanDatesOk(u, norm, search(norm));
  }

  // ---- Properties ----

  /** `x` is the canonical form of the text of a NUM_RE match of `norm` that overlaps none of `spans`. */
  ghost predicate FromNumeralOutside(u: CharTable, norm: string, spans: seq<Span>, x: string) {
    exists m :: m in Matches(u, norm, 0) && !InDateSpan(spans, m.start, m.end) &&
      x == NormalizeAmount(u, norm[m.start..m.end])
  }

  /** No number comes from a match that overlaps an accepted date span. */
  lemma NumbersAvoidDates(u: CharTable, search: string -> seq<Candidate>, text: string)
    ensures var norm := DigitsNormalized(u, text);
      forall x :: x in ExtractNumbersDates(u, search, text).nums ==>
        FromNumeralOutside(u, norm, ScanDates(u, norm, search(norm)).spans, x)
  {
    var norm := DigitsNormalized(u, text);
    var kept := KeptNumerals(u, search, norm);
    AmountsOutside(u, norm, ScanDates(u, norm, search(norm)).spans, kept);
  }

  /** Every non-empty amount of matches outside the date spans comes from such a match. */
  lemma AmountsOutside(u: CharTable, norm: string, spans: seq<Span>, kept: seq<Span>)
    requires forall k :: 0 <= k < |kept| ==> kept[k] in Matches(u, norm, 0) && IsNumeralMatch(u, norm, kept[k])
    requires forall k :: 0 <= k < |kept| ==> !InDateSpan(spans, kept[k].start, kept[k].end)
    ensures forall j :: 0 <= j < |kept| ==> kept[j].start <= kept[j].end <= |norm|
    ensures forall x :: x in DropEmpty(AmountsOf(u, MatchTexts(norm, kept))) ==> FromNumeralOutside(u, norm, spans, x)
  {
    var amounts := AmountsOf(u, MatchTexts(norm, kept));
    forall x | x in DropEmpty(amounts)
      ensures FromNumeralOutside(u, norm, spans, x)
    {
      assert x in amounts;
      var k :| 0 <= k < |amounts| && amounts[k] == x;
      KeptAmountOutside(u, norm, spans, kept, k);
    }
  }

  /** The amount of the `k`-th kept match comes from a match outside the date spans. */
  lemma KeptAmountOutside(u: CharTable, norm: string, spans: seq<Span>, kept: seq<Span>, k: nat)
    requires forall j :: 0 <= j < |kept| ==> kept[j].start <= kept[j].end <= |norm|
    requires k < |kept| && kept[k] in Matches(u, norm, 0) && !InDateSpan(spans, kept[k].start, kept[k].end)
    ensures FromNumeralOutside(u, norm, spans, AmountsOf(u, MatchTexts(norm, kept))[k])
  {
    var m := kept[k];
    assert AmountsOf(u, MatchTexts(norm, kept))[k] == NormalizeAmount(u, norm[m.start..m.end]);
  }

  /** The dates are the ISO strings the date filter produced, in its order. */
  lemma DatesAreFilterOutput(u: CharTable, search: string -> seq<Candidate>, text: string)
    ensures var norm := DigitsNormalized(u, text);
      ExtractNumbersDates(u, search, text).dates == ScanDates(u, norm, search(norm)).isos
  {
  }

  /** `_normalize_amount` of a NUM_RE match is never empty: the match holds a digit. */
  lemma NumeralAmountNonEmpty(u: CharTable, s: string, m: Span)
    requires Valid(u)
    requires IsNumeralMatch(u, s, m)
    ensures NormalizeAmount(u, s[m.start..m.end]) != ""
  {
    var raw := s[m.start..m.end];
    var d := if s[m.start] in u.digit then 0 else 1;
    assert raw[d] in u.digit;
    var normed := DigitsNormalized(u, raw);
    assert IsAsciiDigit(normed[d]);
    KeepFindsAmountChar(normed, d);
    AmountEmptyIff(u, raw);
  }

  /** The filter keeps every amount character. */
  lemma {:induction false} KeepFindsAmountChar(a: string, k: nat)
    requires k < |a| && IsAmountChar(a[k])
    ensures KeepAmountChars(a) != ""
    decreases k
  {
    if k > 0 && !IsAmountChar(a[0]) {
      KeepFindsAmountChar(a[1..], k - 1);
    }
  }

  /**
   * The `if x` of the comprehension never drops anything: there is one
   * number for each match outside the date spans.
   */
  lemma NothingDroppedAsEmpty(u: CharTable, search: string -> seq<Candidate>, text: string)
    requires Valid(u)
    ensures var norm := DigitsNormalized(u, text);
      var kept := KeptNumerals(u, search, norm);
      ExtractNumbersDates(u, search, text).nums == AmountsOf(u, MatchTexts(norm, kept))
  {
    var norm := DigitsNormalized(u, text);
    var kept := KeptNumerals(u, search, norm);
    forall k | 0 <= k < |kept|
      ensures NormalizeAmount(u, norm[kept[k].start..kept[k].end]) != ""
    {
      NumeralAmountNonEmpty(u, norm, kept[k]);
    }
  }

  /** Under a valid table a digit is a word character and none of the punctuation NUM_RE uses. */
  lemma DigitIsNoPunctuation(u: CharTable, c: char)
    requires Valid(u)
    requires c in u.digit
    ensures c in u.word && !IsGroupSeparator(c) && c !in "+-"
  {
  }

  /** The first boundary of `a + b` is the first of `a`, else the first of `b`. */
  lemma {:induction false} FirstBoundaryConcat(u: CharTable, s: string, a: seq<nat>, b: seq<nat>)
    ensures FirstBoundary(u, s, a + b) ==
      if FirstBoundary(u, s, a).Some? then FirstBoundary(u, s, a) else FirstBoundary(u, s, b)
  {
    if a != [] {
      assert (a + b)[0] == a[0] && (a + b)[1..] == a[1..] + b;
      FirstBoundaryConcat(u, s, a[1..], b);
    } else {
      assert a + b == b;
    }
  }

  /** Where neither a separator nor a decimal point follows, groups and fraction add nothing. */
  lemma LoneEnd(u: CharTable, s: string, x: nat)
    requires x <= |s|
    requires x == |s| || !IsGroupSeparator(s[x])
    ensures GroupCount(u, s, x) == 0
    ensures GroupEnds(u, s, x, 0) == [x]
  {
  }

  /** Leads that stop short of the end of a digit run are followed by a digit, so the look-ahead fails. */
  lemma ShortLeadsFail(u: CharTable, s: string, p: nat, e: nat, lead: nat)
    requires Valid(u)
    requires p + lead < e <= |s| && DigitsAt(u, s, p, e)
    ensures FirstBoundary(u, s, LeadEnds(u, s, p, lead)) == None
  {
    forall i | p <= i < e
      ensures s[i] in u.word && !IsGroupSeparator(s[i])
    {
      DigitIsNoPunctuation(u, s[i]);
    }
    WordsAfterOf(u, s, p, lead);
    InnerLeadsFail(u, s, p, lead);
  }

  /** The same, for any run of word characters that are not group separators. */
  lemma {:induction false} InnerLeadsFail(u: CharTable, s: string, p: nat, lead: nat)
    requires p + lead <= |s| && WordsAfter(u, s, p, lead)
    ensures FirstBoundary(u, s, LeadEnds(u, s, p, lead)) == None
    decreases lead
  {
    if lead == 0 {
      NoLeadNoEnds(u, s, p);
    } else {
      InnerLeadsFail(u, s, p, lead - 1);
      LeadStepFails(u, s, p, lead);
    }
  }

  /** The `lead` characters after `p` are word characters and no group separators. */
  predicate WordsAfter(u: CharTable, s: string, p: nat, lead: nat)
    decreases lead
  {
    lead == 0 ||
      (&& p + lead < |s|
       && s[p + lead] in u.word && !IsGroupSeparator(s[p + lead])
       && WordsAfter(u, s, p, lead - 1))
  }

  /** Word characters that are no separators throughout `(p, p + lead]` satisfy `WordsAfter`. */
  lemma {:induction false} WordsAfterOf(u: CharTable, s: string, p: nat, lead: nat)
    requires p + lead < |s|
    requires forall i :: p < i <= p + lead ==> s[i] in u.word && !IsGroupSeparator(s[i])
    ensures WordsAfter(u, s, p, lead)
    decreases lead
  {
    if lead > 0 {
      WordsAfterOf(u, s, p, lead - 1);
    }
  }

  /** A lead of no digits gives no end. */
  lemma NoLeadNoEnds(u: CharTable, s: string, p: nat)
    requires p <= |s|
    ensures FirstBoundary(u, s, LeadEnds(u, s, p, 0)) == None
  {
  }

  /** A lead followed by a word character that is no separator adds no end the look-ahead accepts. */
  lemma LeadStepFails(u: CharTable, s: string, p: nat, lead: nat)
    requires 0 < lead && p + lead < |s|
    requires s[p + lead] in u.word && !IsGroupSeparator(s[p + lead])
    requires FirstBoundary(u, s, LeadEnds(u, s, p, lead - 1)) == None
    ensures FirstBoundary(u, s, LeadEnds(u, s, p, lead)) == None
  {
    var x: nat := p + lead;
    LeadStep(u, s, p, lead);
    assert !NoWordAt(u, s, x);
    FirstBoundaryCons(u, s, x, LeadEnds(u, s, p, lead - 1));
  }

  /** A lead that neither a separator nor a decimal point follows contributes only its own end. */
  lemma LeadStep(u: CharTable, s: string, p: nat, lead: nat)
    requires 0 < lead && p + lead <= |s|
    requires p + lead == |s| || !IsGroupSeparator(s[p + lead])
    ensures LeadEnds(u, s, p, lead) == [p + lead] + LeadEnds(u, s, p, lead - 1)
  {
    LoneEnd(u, s, p + lead);
  }

  /** A run that neither a separator nor a decimal point follows contributes only its own end. */
  lemma RunStep(u: CharTable, s: string, p: nat, n: nat)
    requires 0 < n && p + n <= |s|
    requires p + n == |s| || !IsGroupSeparator(s[p + n])
    ensures RunEnds(u, s, p, n) == [p + n] + RunEnds(u, s, p, n - 1)
  {
    LoneEnd(u, s, p + n);
  }

  /** The look-ahead is tried on the first end, then on the rest. */
  lemma FirstBoundaryCons(u: CharTable, s: string, x: nat, rest: seq<nat>)
    ensures FirstBoundary(u, s, [x] + rest) == if NoWordAt(u, s, x) then Some(x) else FirstBoundary(u, s, rest)
  {
    assert ([x] + rest)[1..] == rest;
  }

  /**
   * A run of digits with no word character before it, and neither a word
   * character nor a separator after it, is matched whole.
   */
  lemma WholeRunMatched(u: CharTable, s: string, p: nat, e: nat)
    requires Valid(u)
    requires p < e <= |s| && DigitsAt(u, s, p, e)
    requires p == 0 || s[p - 1] !in u.word
    requires e == |s| || (s[e] !in u.word && !IsGroupSeparator(s[e]))
    ensures MatchEnd(u, s, p) == Some(e)
  {
    DigitIsNoPunctuation(u, s[p]);
    RunEndsFirst(u, s, p, e);
  }

  /** The first end of such a run where the look-ahead holds is the end of the run. */
  lemma RunEndsFirst(u: CharTable, s: string, p: nat, e: nat)
    requires Valid(u)
    requires p < e <= |s| && DigitsAt(u, s, p, e)
    requires e == |s| || (s[e] !in u.word && !IsGroupSeparator(s[e]))
    ensures FirstBoundary(u, s, NumeralEnds(u, s, p)) == Some(e)
  {
    var run := e - p;
    var lead := if run < 3 then run else 3;
    DigitRunIs(u, s, p, run);
    if run <= 3 {
      ShortRunFirst(u, s, p, e);
    } else {
      ShortLeadsFail(u, s, p, e, lead);
      LongRunFirst(u, s, p, e);
      NumeralEndsFirstOfRuns(u, s, p, run, lead, e);
    }
  }

  /** The numeral alternatives: the leads of up to three digits, then the whole-run forms. */
  lemma NumeralEndsSplit(u: CharTable, s: string, p: nat, run: nat, lead: nat)
    requires p <= |s| && run == DigitRun(u, s, p)
    requires lead == if run < 3 then run else 3
    ensures p + run <= |s|
    ensures NumeralEnds(u, s, p) == LeadEnds(u, s, p, lead) + RunEnds(u, s, p, run)
  {
  }

  /** A run of at most three digits: its longest lead comes first and is accepted. */
  lemma ShortRunFirst(u: CharTable, s: string, p: nat, e: nat)
    requires p < e <= |s| && DigitRun(u, s, p) == e - p && e - p <= 3
    requires e == |s| || (s[e] !in u.word && !IsGroupSeparator(s[e]))
    ensures FirstBoundary(u, s, NumeralEnds(u, s, p)) == Some(e)
  {
    NumeralEndsSplit(u, s, p, e - p, e - p);
    LeadOfRunFirst(u, s, p, e);
    FirstOfPrefix(u, s, LeadEnds(u, s, p, e - p), RunEnds(u, s, p, e - p), e);
  }

  /** When no lead is accepted, the first accepted end is the first one of the whole-run forms. */
  lemma NumeralEndsFirstOfRuns(u: CharTable, s: string, p: nat, run: nat, lead: nat, e: nat)
    requires p <= |s| && run == DigitRun(u, s, p) && lead == if run < 3 then run else 3
    requires FirstBoundary(u, s, LeadEnds(u, s, p, lead)) == None
    requires FirstBoundary(u, s, RunEnds(u, s, p, run)) == Some(e)
    ensures FirstBoundary(u, s, NumeralEnds(u, s, p)) == Some(e)
  {
    NumeralEndsSplit(u, s, p, run, lead);
    FirstOfSuffix(u, s, LeadEnds(u, s, p, lead), RunEnds(u, s, p, run), e);
  }

  /** When `a` has no accepted end, the first accepted end of `a + b` is that of `b`. */
  lemma FirstOfSuffix(u: CharTable, s: string, a: seq<nat>, b: seq<nat>, e: nat)
    requires FirstBoundary(u, s, a) == None && FirstBoundary(u, s, b) == Some(e)
    ensures FirstBoundary(u, s, a + b) == Some(e)
  {
    FirstBoundaryConcat(u, s, a, b);
  }

  /**
   * A lead of up to three digits that is the whole digit run, followed by
   * the groups greedy matching takes and then a decimal fraction, is matched
   * whole when no word character follows the fraction.
   */
  lemma GroupedDecimalMatched(u: CharTable, s: string, p: nat, x: nat, g: nat, y: nat, e: nat)
    requires Valid(u)
    requires p < x <= p + 3 && x <= |s| && DigitRun(u, s, p) == x - p
    requires p == 0 || s[p - 1] !in u.word
    requires g == GroupCount(u, s, x) && y == x + 4 * g
    requires y < |s| && s[y] in ".," && DigitRun(u, s, y + 1) >= 1 && e == y + 1 + DigitRun(u, s, y + 1)
    requires NoWordAt(u, s, e)
    ensures MatchEnd(u, s, p) == Some(e)
  {
    DigitIsNoPunctuation(u, s[p]);
    FractionFirst(u, s, y, e);
    GroupEndsFirst(u, s, x, g, e);
    LeadEndsFirst(u, s, p, x, e);
    NumeralEndsSplit(u, s, p, x - p, x - p);
    FirstOfPrefix(u, s, LeadEnds(u, s, p, x - p), RunEnds(u, s, p, x - p), e);
  }

  /** An end accepted first among the fraction's ends after `g` groups is accepted first among all grouped ends. */
  lemma GroupEndsFirst(u: CharTable, s: string, x: nat, g: nat, e: nat)
    requires x + 4 * g <= |s| && FirstBoundary(u, s, FractionEnds(u, s, x + 4 * g)) == Some(e)
    ensures FirstBoundary(u, s, GroupEnds(u, s, x, g)) == Some(e)
  {
    if g > 0 {
      GroupEndsTop(u, s, x, g);
      FirstOfPrefix(u, s, FractionEnds(u, s, x + 4 * g), GroupEnds(u, s, x, g - 1), e);
    }
  }

  /** An end accepted first among the grouped ends of the longest lead is accepted first among all leads. */
  lemma LeadEndsFirst(u: CharTable, s: string, q: nat, x: nat, e: nat)
    requires q < x <= |s|
    requires FirstBoundary(u, s, GroupEnds(u, s, x, GroupCount(u, s, x))) == Some(e)
    ensures FirstBoundary(u, s, LeadEnds(u, s, q, x - q)) == Some(e)
  {
    LeadEndsTop(u, s, q, x - q);
    FirstOfPrefix(u, s, GroupEnds(u, s, x, GroupCount(u, s, x)), LeadEnds(u, s, q, x - q - 1), e);
  }

  /** The longest fraction is tried first, and it is accepted when no word character follows it. */
  lemma FractionFirst(u: CharTable, s: string, y: nat, e: nat)
    requires y < |s| && s[y] in ".," && DigitRun(u, s, y + 1) >= 1 && e == y + 1 + DigitRun(u, s, y + 1)
    requires NoWordAt(u, s, e)
    ensures FirstBoundary(u, s, FractionEnds(u, s, y)) == Some(e)
  {
    var f := FractionEnds(u, s, y);
    assert f == Countdown(e, y + 2) + [y];
    assert [e] + f[1..] == f;
    FirstBoundaryCons(u, s, e, f[1..]);
  }

  /** An end accepted first in `a` is accepted first in `a + b`. */
  lemma FirstOfPrefix(u: CharTable, s: string, a: seq<nat>, b: seq<nat>, e: nat)
    requires FirstBoundary(u, s, a) == Some(e)
    ensures FirstBoundary(u, s, a + b) == Some(e)
  {
    FirstBoundaryConcat(u, s, a, b);
  }

  /** The ends with most groups come first. */
  lemma GroupEndsTop(u: CharTable, s: string, x: nat, g: nat)
    requires 0 < g && x + 4 * g <= |s|
    ensures GroupEnds(u, s, x, g) == FractionEnds(u, s, x + 4 * g) + GroupEnds(u, s, x, g - 1)
  {
  }

  /** The ends of the longest lead come first. */
  lemma LeadEndsTop(u: CharTable, s: string, q: nat, lead: nat)
    requires 0 < lead && q + lead <= |s|
    ensures LeadEnds(u, s, q, lead) == GroupEnds(u, s, q + lead, GroupCount(u, s, q + lead)) + LeadEnds(u, s, q, lead - 1)
  {
  }

  /** For instance `1,250.50` is one amount, not `1`, `250` and `50`. */
  lemma GroupedDecimalExample(u: CharTable)
    requires Valid(u)
    ensures MatchEnd(u, "1,250.50", 0) == Some(8)
  {
    var s := "1,250.50";
    DigitRunIs(u, s, 0, 1);
    DigitRunIs(u, s, 6, 2);
    assert GroupAt(u, s, 1) && !GroupAt(u, s, 5);
    assert GroupCount(u, s, 1) == 1;
    GroupedDecimalMatched(u, s, 0, 1, 1, 5, 8);
  }

  /** A run of at most three digits is ended by the longest lead. */
  lemma LeadOfRunFirst(u: CharTable, s: string, p: nat, e: nat)
    requires p < e <= |s| && e - p <= 3
    requires e == |s| || (s[e] !in u.word && !IsGroupSeparator(s[e]))
    ensures FirstBoundary(u, s, LeadEnds(u, s, p, e - p)) == Some(e)
  {
    LeadStep(u, s, p, e - p);
    FirstBoundaryCons(u, s, e, LeadEnds(u, s, p, e - p - 1));
  }

  /** A longer run is ended by the second alternative, taking the whole run. */
  lemma LongRunFirst(u: CharTable, s: string, p: nat, e: nat)
    requires p < e <= |s|
    requires e == |s| || (s[e] !in u.word && !IsGroupSeparator(s[e]))
    ensures FirstBoundary(u, s, RunEnds(u, s, p, e - p)) == Some(e)
  {
    RunStep(u, s, p, e - p);
    FirstBoundaryCons(u, s, e, RunEnds(u, s, p, e - p - 1));
  }
}
