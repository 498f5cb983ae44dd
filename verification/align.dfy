/**
 * The sentence aligner: `split_sentences` cuts a text after sentence
 * terminators, and `simple_align` pairs the sentences of two texts by
 * position, padding the shorter list with empty strings.
 */
module Align {
  import opened Text

  /** The characters of the class `[.!?。؟]`. */
  predicate IsTerminator(c: char) {
    c == '.' || c == '!' || c == '?' || c == '。' || c == '؟'
  }

  /** `SPLIT_RE` can begin a match at `j`: `\s` preceded by a terminator. */
  predicate IsSplitPoint(t: string, j: nat) {
    0 < j < |t| && IsTerminator(t[j - 1]) && IsSpace(t[j])
  }

  /** The end of the greedy `\s+` run that starts at `i`. */
  function SpaceRunEnd(t: string, i: nat): (e: nat)
    requires i <= |t|
    ensures i <= e <= |t| && (e == |t| || !IsSpace(t[e]))
    ensures forall m :: i <= m < e ==> IsSpace(t[m])
    decreases |t| - i
  {
    if i < |t| && IsSpace(t[i]) then SpaceRunEnd(t, i + 1) else i
  }

  /** A piece of the split, as the slice `t[lo..hi]`. */
  datatype Piece = Piece(lo: nat, hi: nat)

  /**
   * `SPLIT_RE.split(t)` as the pieces it returns: the search runs from `i`,
   * the current piece began at `start`, and each match ends a piece and
   * resumes the search where the match ends.
   */
  function Scan(t: string, start: nat, i: nat): (r: seq<Piece>)
    requires start <= i <= |t|
    ensures r != []
    decreases |t| - i
  {
    if i == |t| then [Piece(start, i)]
    else if IsSplitPoint(t, i) then
      var e := SpaceRunEnd(t, i);
      [Piece(start, i)] + Scan(t, e, e)
    else Scan(t, start, i + 1)
  }

  /** No match of `SPLIT_RE` begins inside the piece. */
  predicate Unbroken(t: string, p: Piece) {
    p.lo <= p.hi <= |t| && forall j :: p.lo <= j < p.hi ==> !IsSplitPoint(t, j)
  }

  /** `t[a..b]` is a maximal run of `\s` right after a terminator: one match of `SPLIT_RE`. */
  predicate IsGap(t: string, a: nat, b: nat) {
    a < b <= |t| && IsSplitPoint(t, a) && (forall m :: a <= m < b ==> IsSpace(t[m])) && (b == |t| || !IsSpace(t[b]))
  }

  /** The pieces tile `t[start..]`, separated by the matches of `SPLIT_RE`, with no match left inside a piece. */
  ghost predicate PiecesOk(t: string, start: nat, r: seq<Piece>) {
    && r != [] && r[0].lo == start && r[|r| - 1].hi == |t|
    && (forall k :: 0 <= k < |r| ==> Unbroken(t, r[k]))
    && (forall k :: 1 <= k < |r| ==> IsGap(t, r[k - 1].hi, r[k].lo))
  }

  /** The pieces lie within `t`, each one ending before the next begins. */
  predicate Ordered(t: string, r: seq<Piece>) {
    && (forall k :: 0 <= k < |r| ==> r[k].lo <= r[k].hi <= |t|)
    && (forall k :: 1 <= k < |r| ==> r[k - 1].hi <= r[k].lo)
  }

  lemma PiecesOkOrdered(t: string, start: nat, r: seq<Piece>)
    requires PiecesOk(t, start, r)
    ensures Ordered(t, r)
  {
    forall k | 1 <= k < |r|
      ensures r[k - 1].hi <= r[k].lo
    {
      assert IsGap(t, r[k - 1].hi, r[k].lo);
    }
  }

  lemma {:induction false} ScanOk(t: string, start: nat, i: nat)
    requires start <= i <= |t|
    requires forall j :: start <= j < i ==> !IsSplitPoint(t, j)
    ensures PiecesOk(t, start, Scan(t, start, i))
    decreases |t| - i
  {
    if i < |t| {
      if IsSplitPoint(t, i) {
        var e := SpaceRunEnd(t, i);
        ScanOk(t, e, e);
        var rest := Scan(t, e, e);
        assert Scan(t, start, i) == [Piece(start, i)] + rest;
        assert IsGap(t, i, rest[0].lo);
      } else {
        ScanOk(t, start, i + 1);
      }
    }
  }

  /** The texts of the pieces. */
  function Texts(t: string, r: seq<Piece>): (ps: seq<string>)
    requires Ordered(t, r)
    ensures |ps| == |r| && forall k :: 0 <= k < |r| ==> ps[k] == t[r[k].lo..r[k].hi]
  {
    if r == [] then [] else [t[r[0].lo..r[0].hi]] + Texts(t, r[1..])
  }

  /** The texts of the matches between consecutive pieces. */
  function GapTexts(t: string, r: seq<Piece>): (gs: seq<string>)
    requires Ordered(t, r)
    ensures |r| > 0 ==> |gs| == |r| - 1
    ensures forall k :: 1 <= k < |r| ==> gs[k - 1] == t[r[k - 1].hi..r[k].lo]
  {
    if |r| <= 1 then [] else [t[r[0].hi..r[1].lo]] + GapTexts(t, r[1..])
  }

  /** The pieces joined back together with the separators between them. */
  function Weave(ps: seq<string>, gs: seq<string>): string
    requires ps == [] || |gs| + 1 == |ps|
  {
    if ps == [] then ""
    else if |ps| == 1 then ps[0]
    else ps[0] + gs[0] + Weave(ps[1..], gs[1..])
  }

  /** Weaving the pieces of a tiling with its gaps gives back the tiled text. */
  lemma {:induction false} WeaveTiling(t: string, r: seq<Piece>)
    requires r != [] && r[|r| - 1].hi == |t| && Ordered(t, r)
    ensures Weave(Texts(t, r), GapTexts(t, r)) == t[r[0].lo..]
  {
    if |r| > 1 {
      var tail := r[1..];
      WeaveTiling(t, tail);
      assert Texts(t, r)[1..] == Texts(t, tail);
      assert GapTexts(t, r)[1..] == GapTexts(t, tail);
      SuffixInThree(t, r[0].lo, r[0].hi, r[1].lo);
    }
  }

  lemma SuffixInThree(t: string, a: nat, b: nat, c: nat)
    requires a <= b <= c <= |t|
    ensures t[a..] == t[a..b] + t[b..c] + t[c..]
  {
  }

  /** `SPLIT_RE.split(t)`. */
  function Split(t: string): (r: seq<string>)
    ensures r != []
  {
    ScanOk(t, 0, 0);
    PiecesOkOrdered(t, 0, Scan(t, 0, 0));
    Texts(t, Scan(t, 0, 0))
  }

  /** The matches `SPLIT_RE.split(t)` removed, in order. */
  function Separators(t: string): (gs: seq<string>)
    ensures |gs| + 1 == |Split(t)|
  {
    ScanOk(t, 0, 0);
    PiecesOkOrdered(t, 0, Scan(t, 0, 0));
    GapTexts(t, Scan(t, 0, 0))
  }

  /** The filter `[p for p in parts if p and p.strip()]`. */
  function NonBlank(ps: seq<string>): (r: seq<string>)
    ensures |r| <= |ps|
  {
    if ps == [] then []
    else if ps[0] != "" && Strip(ps[0]) != "" then [ps[0]] + NonBlank(ps[1..])
    else NonBlank(ps[1..])
  }

  /** `split_sentences(text)`; `None` is not a string here, so only the empty text takes the first branch. */
  function SplitSentences(text: string): seq<string> {
    if text == "" then [] else NonBlank(Split(Strip(text)))
  }

  /** Text that is not all `str.isspace` survives `strip`. */
  lemma StripKeepsNonSpace(s: string, k: nat)
    requires k < |s| && !IsStripSpace(s[k])
    ensures Strip(s) != ""
  {
    var lo := StripSlice(s);
  }

  /** In a stripped, non-empty text each piece is non-empty and starts and ends outside white space. */
  lemma PieceEnds(t: string, r: seq<Piece>, k: nat)
    requires t != [] && !IsStripSpace(t[0]) && !IsStripSpace(t[|t| - 1])
    requires PiecesOk(t, 0, r) && k < |r|
    ensures r[k].lo < r[k].hi <= |t| && !IsSpace(t[r[k].lo]) && !IsStripSpace(t[r[k].hi - 1])
    ensures k < |r| - 1 ==> IsTerminator(t[r[k].hi - 1])
  {
    var p := r[k];
    assert Unbroken(t, p);
    if k < |r| - 1 {
      assert IsGap(t, r[k + 1 - 1].hi, r[k + 1].lo);
      assert IsTerminator(t[p.hi - 1]);
    } else {
      assert p.hi == |t|;
    }
    if k > 0 {
      assert IsGap(t, r[k - 1].hi, p.lo);
    }
  }

  /**
   * What a sentence looks like: non-empty and non-blank, not starting with
   * `\s`, ending with a terminator unless it is the `final` one, and with no
   * terminator followed by `\s` inside it.
   */
  predicate IsSentence(p: string, final: bool) {
    && p != "" && !IsSpace(p[0]) && Strip(p) != ""
    && (!final ==> IsTerminator(p[|p| - 1]))
    && forall m :: 0 < m < |p| ==> !(IsTerminator(p[m - 1]) && IsSpace(p[m]))
  }

  /** A piece that starts and ends outside white space, with a terminator unless it is `final`, is a sentence. */
  lemma PieceIsSentence(t: string, p: Piece, final: bool)
    requires Unbroken(t, p) && p.lo < p.hi
    requires !IsSpace(t[p.lo]) && !IsStripSpace(t[p.hi - 1]) && (!final ==> IsTerminator(t[p.hi - 1]))
    ensures IsSentence(t[p.lo..p.hi], final)
  {
    var piece := t[p.lo..p.hi];
    assert piece[0] == t[p.lo];
    assert piece[|piece| - 1] == t[p.hi - 1];
    StripKeepsNonSpace(piece, |piece| - 1);
    NoSplitInside(t, p);
  }

  lemma NoSplitInside(t: string, p: Piece)
    requires Unbroken(t, p)
    ensures forall m :: 0 < m < p.hi - p.lo ==> !(IsTerminator(t[p.lo..p.hi][m - 1]) && IsSpace(t[p.lo..p.hi][m]))
  {
    forall m | 0 < m < p.hi - p.lo
      ensures !(IsTerminator(t[p.lo..p.hi][m - 1]) && IsSpace(t[p.lo..p.hi][m]))
    {
      assert !IsSplitPoint(t, p.lo + m);
    }
  }

  /** Every piece of a stripped, non-empty text is a sentence. */
  lemma PiecesOfStripped(t: string)
    requires t != [] && !IsStripSpace(t[0]) && !IsStripSpace(t[|t| - 1])
    ensures forall k :: 0 <= k < |Split(t)| ==> IsSentence(Split(t)[k], k == |Split(t)| - 1)
  {
    ScanOk(t, 0, 0);
    var r := Scan(t, 0, 0);
    PiecesOkOrdered(t, 0, r);
    var ps := Texts(t, r);
    assert Split(t) == ps;
    forall k | 0 <= k < |ps|
      ensures IsSentence(ps[k], k == |ps| - 1)
    {
      PieceEnds(t, r, k);
      assert Unbroken(t, r[k]);
      PieceIsSentence(t, r[k], k == |r| - 1);
    }
  }

  /** On a stripped text the filter keeps every piece. */
  lemma {:induction false} NonBlankKeepsAll(ps: seq<string>)
    requires forall k :: 0 <= k < |ps| ==> ps[k] != "" && Strip(ps[k]) != ""
    ensures NonBlank(ps) == ps
  {
    if ps != [] {
      NonBlankKeepsAll(ps[1..]);
    }
  }

  /** `split_sentences` returns `[]` exactly for the empty and the all-white-space text. */
  lemma SplitSentencesEmpty(text: string)
    ensures SplitSentences(text) == [] <==> Strip(text) == ""
  {
    var t := Strip(text);
    if t != "" {
      PiecesOfStripped(t);
      NonBlankKeepsAll(Split(t));
    } else if text != "" {
      assert Split(t) == [""];
    }
  }

  /** Every sentence `split_sentences` returns has the shape `IsSentence` describes. */
  lemma SplitSentencesAreSentences(text: string)
    ensures forall k :: 0 <= k < |SplitSentences(text)| ==>
      IsSentence(SplitSentences(text)[k], k == |SplitSentences(text)| - 1)
  {
    var t := Strip(text);
    if t != "" {
      PiecesOfStripped(t);
      NonBlankKeepsAll(Split(t));
    } else {
      SplitSentencesEmpty(text);
    }
  }

  /** Every separator the split removes is a non-empty run of `\s`. */
  lemma SeparatorsAreSpace(t: string)
    ensures forall g :: g in Separators(t) ==> g != "" && forall m :: 0 <= m < |g| ==> IsSpace(g[m])
  {
    ScanOk(t, 0, 0);
    var r := Scan(t, 0, 0);
    PiecesOkOrdered(t, 0, r);
    var gs := GapTexts(t, r);
    assert Separators(t) == gs;
    forall g | g in gs
      ensures g != "" && forall m :: 0 <= m < |g| ==> IsSpace(g[m])
    {
      var k :| 0 <= k < |gs| && g == gs[k];
      assert IsGap(t, r[k + 1 - 1].hi, r[k + 1].lo);
    }
  }

  /**
   * Weaving the sentences back together with the white-space runs the split
   * removed gives `text.strip()`: only white space at the boundaries is lost.
   */
  lemma SplitSentencesRejoin(text: string)
    requires Strip(text) != ""
    ensures SplitSentences(text) == Split(Strip(text))
    ensures Weave(SplitSentences(text), Separators(Strip(text))) == Strip(text)
  {
    var t := Strip(text);
    PiecesOfStripped(t);
    NonBlankKeepsAll(Split(t));
    ScanOk(t, 0, 0);
    var r := Scan(t, 0, 0);
    PiecesOkOrdered(t, 0, r);
    WeaveTiling(t, r);
  }

  /** Empty strings used as padding. */
  function Blanks(n: nat): (r: seq<string>)
    ensures |r| == n && forall k :: 0 <= k < n ==> r[k] == ""
  {
    seq(n, _ => "")
  }

  /**
   * `simple_align(src, tgt)`: both sentence lists padded in place with `""`
   * to the length of the longer one.
   */
  method SimpleAlign(src: string, tgt: string) returns (s: seq<string>, t: seq<string>)
    ensures |s| == |t|
    ensures |s| == if |SplitSentences(src)| >= |SplitSentences(tgt)| then |SplitSentences(src)| else |SplitSentences(tgt)|
    ensures s[..|SplitSentences(src)|] == SplitSentences(src) && forall k :: |SplitSentences(src)| <= k < |s| ==> s[k] == ""
    ensures t[..|SplitSentences(tgt)|] == SplitSentences(tgt) && forall k :: |SplitSentences(tgt)| <= k < |t| ==> t[k] == ""
  {
    s := SplitSentences(src);
    t := SplitSentences(tgt);
    var n := if |s| >= |t| then |s| else |t|;
    s := s + Blanks(n - |s|);
    t := t + Blanks(n - |t|);
  }
}
