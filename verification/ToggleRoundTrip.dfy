/** What a line-style toggle does to the lines it covers, and exactly when a second one takes it back. */
module ToggleRoundTrip {
  import opened Text
  import opened Markers
  import opened EditCalculus
  import opened LineCalculus
  import opened CommentToggle

  // ----- lines and their texts -----------------------------------------------------------------------------

  /** The lines were read off these raw texts, the first one at ls. */
  ghost predicate Fits(lines: seq<Line>, raws: seq<Str>, ls: nat) {
    |lines| == |raws| &&
    (lines == [] || (LineFits(lines[0], raws[0], ls) && Fits(lines[1..], raws[1..], ls + |raws[0]| + 1)))
  }

  ghost predicate LineFits(l: Line, raw: Str, ls: nat) {
    l.ls == ls && l.body == WithoutReturn(raw) && PairFits(l)
  }

  lemma {:induction false} LinesFit(kindAt: KindAt, ls: nat, raws: seq<Str>)
    requires Sound(kindAt)
    ensures Fits(LinesFrom(kindAt, ls, raws), raws, ls)
    decreases |raws|
  {
    if raws != [] { LinesFit(kindAt, ls + |raws[0]| + 1, raws[1..]); }
  }

  lemma {:induction false} FitsAt(lines: seq<Line>, raws: seq<Str>, ls: nat, k: nat)
    requires Fits(lines, raws, ls) && k < |raws|
    ensures LineFits(lines[k], raws[k], ls + Offset(raws, k))
    decreases k
  {
    if k > 0 { FitsAt(lines[1..], raws[1..], ls + |raws[0]| + 1, k - 1); }
  }

  /** The edits of each line. */
  ghost function Pairs(lines: seq<Line>, commenting: bool): (pairs: seq<seq<Edit>>)
    ensures |pairs| == |lines|
  {
    if lines == [] then [] else [EditsOfLine(lines[0], commenting)] + Pairs(lines[1..], commenting)
  }

  lemma {:induction false} PairsAt(lines: seq<Line>, commenting: bool, k: nat)
    requires k < |lines|
    ensures Pairs(lines, commenting)[k] == EditsOfLine(lines[k], commenting)
  {
    if k > 0 { PairsAt(lines[1..], commenting, k - 1); }
  }

  lemma {:induction false} PairsFlat(lines: seq<Line>, commenting: bool)
    ensures Flat(Pairs(lines, commenting)) == EditsOf(lines, commenting)
  {
    if lines != [] { PairsFlat(lines[1..], commenting); }
  }

  lemma {:induction false} EditsOfLinePair(l: Line, raw: Str, ls: nat, commenting: bool)
    requires LineFits(l, raw, ls)
    ensures Pair(EditsOfLine(l, commenting), ls, ls + |raw|)
    ensures commenting ==> InsertingPair(EditsOfLine(l, commenting))
  {
  }

  lemma {:induction false} PairsByLine(lines: seq<Line>, raws: seq<Str>, ls: nat, commenting: bool)
    requires Fits(lines, raws, ls)
    ensures ByLine(Pairs(lines, commenting), raws, ls)
    ensures commenting ==> Inserting(Pairs(lines, commenting))
    decreases |raws|
  {
    if raws != [] {
      EditsOfLinePair(lines[0], raws[0], ls, commenting);
      PairsByLine(lines[1..], raws[1..], ls + |raws[0]| + 1, commenting);
    }
  }

  /** The text of each line after a toggle. */
  ghost function LinesAfter(lines: seq<Line>, raws: seq<Str>, ls: nat, commenting: bool): (r: seq<Str>)
    requires Fits(lines, raws, ls)
    ensures |r| == |raws|
  {
    PairsByLine(lines, raws, ls, commenting);
    EditLines(raws, ls, Pairs(lines, commenting))
  }

  lemma {:induction false} EditLinesAt(raws: seq<Str>, ls: nat, pairs: seq<seq<Edit>>, k: nat)
    requires ByLine(pairs, raws, ls) && k < |raws|
    ensures Pair(pairs[k], ls + Offset(raws, k), ls + Offset(raws, k) + |raws[k]|)
    ensures EditLines(raws, ls, pairs)[k] == EditLine(raws[k], ls + Offset(raws, k), pairs[k])
    decreases k
  {
    if k > 0 { EditLinesAt(raws[1..], ls + |raws[0]| + 1, pairs[1..], k - 1); }
  }

  lemma {:induction false} LinesAfterAt(lines: seq<Line>, raws: seq<Str>, ls: nat, commenting: bool, k: nat)
    requires Fits(lines, raws, ls) && k < |raws|
    ensures LineFits(lines[k], raws[k], ls + Offset(raws, k))
    ensures Pair(EditsOfLine(lines[k], commenting), ls + Offset(raws, k), ls + Offset(raws, k) + |raws[k]|)
    ensures LinesAfter(lines, raws, ls, commenting)[k]
         == EditLine(raws[k], ls + Offset(raws, k), EditsOfLine(lines[k], commenting))
  {
    FitsAt(lines, raws, ls, k);
    PairsByLine(lines, raws, ls, commenting);
    PairsAt(lines, commenting, k);
    EditLinesAt(raws, ls, Pairs(lines, commenting), k);
  }

  // ----- one commented line --------------------------------------------------------------------------------

  /** A line's text with the comment around it. */
  function CommentText(body: Str): Str {
    body[..Indent(body)] + (OPEN + (body[Indent(body)..] + CLOSE))
  }

  /** A line's comment that would be left alone by the next toggle: it reads as a tag line. */
  predicate ReadsAsTag(body: Str) {
    IsTagLine(CommentText(body))
  }

  lemma {:induction false} CommentLine(l: Line, raw: Str, ls: nat)
    requires LineFits(l, raw, ls) && l.kind.Plain?
    requires Pair(Comment(l), ls, ls + |raw|)
    ensures EditLine(raw, ls, Comment(l)) == CommentText(l.body) + raw[|l.body|..]
  {
    var i, n := Indent(l.body), |l.body|;
    var a, b, c := raw[..i], raw[i..n], raw[n..];
    assert a == l.body[..i] && b == l.body[i..];
    Associate(a, OPEN + (b + CLOSE), c);
    Associate(OPEN, b + CLOSE, c);
    Associate(b, CLOSE, c);
  }

  lemma {:induction false} CommentTextUnits(body: Str, k: nat)
    ensures |CommentText(body)| == |body| + 9
    ensures k < Indent(body) ==> CommentText(body)[k] == body[k] && TabOrSpace(body[k])
    ensures k < 5 ==> CommentText(body)[Indent(body) + k] == OPEN[k]
    ensures Indent(body) <= k < |body| ==> CommentText(body)[k + 5] == body[k]
    ensures k < 4 ==> CommentText(body)[|body| + 5 + k] == CLOSE[k]
  {
  }

  lemma {:induction false} CommentedRaw(body: Str, raw: Str)
    requires body == WithoutReturn(raw)
    ensures WithoutReturn(CommentText(body) + raw[|body|..]) == CommentText(body)
  {
    var c := CommentText(body);
    var whole := c + raw[|body|..];
    CommentTextUnits(body, 3);
    assert c[|c| - 1] == GREATER;
    if |body| < |raw| {
      assert whole[|whole| - 1] == CR && whole[..|whole| - 1] == c;
    } else {
      assert whole == c;
    }
  }

  lemma {:induction false} CommentTextFront(body: Str)
    requires Indent(body) < |body|
    ensures var c, i := CommentText(body), Indent(body);
      RunEnd(c, 0, IsSpace) == i && OpensAt(c, i) && c[i + 4] == SPACE && c[i + 5..|body| + 5] == body[i..]
  {
    var c, i := CommentText(body), Indent(body);
    CommentTextUnits(body, 0);
    CommentTextUnits(body, 1);
    CommentTextUnits(body, 2);
    CommentTextUnits(body, 3);
    CommentTextUnits(body, 4);
    forall k | 0 <= k < i ensures IsSpace(c[k]) { CommentTextUnits(body, k); }
    forall k | i <= k < |body| ensures c[k + 5] == body[k] { CommentTextUnits(body, k); }
  }

  lemma {:induction false} CommentTextBack(body: Str)
    ensures var c := CommentText(body);
      |c| == |body| + 9 && RunStart(c, |c|, IsSpace) == |c| && ArrowAt(c, |c| - 3) && c[|c| - 4] == SPACE
  {
    CommentTextUnits(body, 0);
    CommentTextUnits(body, 1);
    CommentTextUnits(body, 2);
    CommentTextUnits(body, 3);
  }

  /** A line without "-->" of its own is read back as exactly one comment around what it held. */
  lemma {:induction false} CommentTextMatches(body: Str)
    requires Indent(body) < |body| && !HasArrow(body)
    ensures MatchOneLine(CommentText(body)) == OneLine(Indent(body), Indent(body) + 5, |body| + 5, |body| + 9)
    ensures IsOneComment(CommentText(body)) && !AllSpace(CommentText(body))
  {
    CommentTextFront(body);
    CommentTextBack(body);
    SuffixHasNoArrow(body, Indent(body));
    assert !IsSpace(CommentText(body)[Indent(body)]);
  }

  lemma {:induction false} SuffixHasNoArrow(s: Str, i: nat)
    requires i <= |s| && !HasArrow(s)
    ensures !HasArrow(s[i..])
  {
    forall k | 0 <= k < |s[i..]| ensures !ArrowAt(s[i..], k) {
      assert !ArrowAt(s, i + k);
    }
  }

  // ----- the text after the first toggle -------------------------------------------------------------------

  lemma {:induction false} EditLineNoBreak(raw: Str, ls: nat, es: seq<Edit>)
    requires Pair(es, ls, ls + |raw|) && InsertingPair(es) && NoBreak(raw)
    ensures NoBreak(EditLine(raw, ls, es))
  {
  }

  lemma {:induction false} AfterNoBreak(lines: seq<Line>, raws: seq<Str>, ls: nat)
    requires Fits(lines, raws, ls) && forall k :: 0 <= k < |raws| ==> NoBreak(raws[k])
    ensures forall k :: 0 <= k < |raws| ==> NoBreak(LinesAfter(lines, raws, ls, true)[k])
  {
    forall k | 0 <= k < |raws| ensures NoBreak(LinesAfter(lines, raws, ls, true)[k]) {
      LinesAfterAt(lines, raws, ls, true, k);
      EditsOfLinePair(lines[k], raws[k], ls + Offset(raws, k), true);
      EditLineNoBreak(raws[k], ls + Offset(raws, k), EditsOfLine(lines[k], true));
    }
  }

  /** What a toggle's edits do to a region is what they do to its lines. */
  lemma {:induction false} ApplyLines(t: Str, lines: seq<Line>, raws: seq<Str>, ls: nat, hi: nat, commenting: bool)
    requires raws != [] && Fits(lines, raws, ls) && ls <= hi <= |t| && t[ls..hi] == JoinLines(raws)
    ensures Ordered(EditsOf(lines, commenting), ls, hi)
    ensures Apply(t, ls, hi, EditsOf(lines, commenting)) == JoinLines(LinesAfter(lines, raws, ls, commenting))
    ensures commenting ==> Insertions(EditsOf(lines, true), ls) && InsertsNoBreak(EditsOf(lines, true))
  {
    assert hi == ls + |JoinLines(raws)|;
    PairsByLine(lines, raws, ls, commenting);
    PairsFlat(lines, commenting);
    ApplyByLine(t, raws, ls, Pairs(lines, commenting));
    if commenting { ByLineInsertions(raws, ls, Pairs(lines, true)); }
  }
}
