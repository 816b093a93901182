/**
  What one press of Ctrl+/ makes of each line, one comment per line: what a line says stays, unit by unit, and only the
  ends of comments come and go.
 */
module PressedText {
  import opened Text
  import opened Markers
  import opened EditCalculus
  import opened LineCalculus
  import opened CommentToggle
  import opened ToggleRoundTrip
  import opened ToggleTheorem
  import opened LineForms

  /** A line that is left alone, whatever it says: blank, a marker, a tag line, or part of a longer comment. */
  ghost predicate LeftAlone(t: Str, ranges: seq<Range>, ls: nat, body: Str) {
    AllSpace(body) || HasMarker(body) || IsTagLine(body) || InLongComment(t, ranges, ls, ls + |body|)
  }

  /** A line after a press that takes comments off: what it is without its comment, when it is nothing but one. */
  ghost predicate TakenOff(t: Str, ranges: seq<Range>, ls: nat, body: Str, end: Str, after: Str) {
    if LeftAlone(t, ranges, ls, body) || (forall sh: Shape :: sh.Valid() ==> sh.Whole() != body)
    then after == body + end
    else forall sh: Shape :: sh.Valid() && sh.Whole() == body ==> after == sh.Kept() + end
  }

  /** The indentation of a line, and the rest. */
  ghost predicate Indented(body: Str, lead: Str, rest: Str) {
    && body == lead + rest && (forall k :: 0 <= k < |lead| ==> lead[k] == 0x09 || lead[k] == 0x20)
    && (rest != [] ==> rest[0] != 0x09 && rest[0] != 0x20)
  }

  /** A line after a press that puts comments on: "<!-- " behind its indentation and " -->" at its end. */
  ghost predicate PutOn(t: Str, ranges: seq<Range>, ls: nat, body: Str, end: Str, after: Str) {
    if LeftAlone(t, ranges, ls, body) || HasArrow(body) then after == body + end
    else forall lead, rest :: Indented(body, lead, rest) ==>
      after == lead + ([0x3C, 0x21, 0x2D, 0x2D, 0x20] + (rest + ([0x20, 0x2D, 0x2D, 0x3E] + end)))
  }

  /** A line of the region and what it becomes; a carriage return stays at its end. */
  ghost predicate Becomes(t: Str, ranges: seq<Range>, ls: nat, raw: Str, after: Str, commenting: bool) {
    var body := WithoutReturn(raw);
    var end := raw[|body|..];
    if commenting then PutOn(t, ranges, ls, body, end, after) else TakenOff(t, ranges, ls, body, end, after)
  }

  // ----- one line ------------------------------------------------------------------------------------------

  /** Comments come off only lines of the kind "commented", and those are one comment each. */
  lemma {:induction false} CommentedKind(t: Str, ranges: seq<Range>, ls: nat, body: Str)
    ensures KindOf(t, ranges, ls, body).Commented? <==> !LeftAlone(t, ranges, ls, body) && IsOneComment(body)
    ensures KindOf(t, ranges, ls, body).Plain? <==> !LeftAlone(t, ranges, ls, body) && !HasArrow(body)
  {
    if IsOneComment(body) { OneCommentArrow(body); }
  }

  lemma {:induction false} OneCommentArrow(body: Str)
    requires IsOneComment(body)
    ensures HasArrow(body)
  {
    assert ArrowAt(body, MatchOneLine(body).closeEnd - 3);
  }

  lemma {:induction false} OneCommentShape(body: Str)
    ensures IsOneComment(body) <==> exists sh: Shape :: sh.Valid() && sh.Whole() == body
  {
    if IsOneComment(body) { var sh := MatchHasShape(body); }
    forall sh: Shape | sh.Valid() && sh.Whole() == body ensures IsOneComment(body) { ShapeMatches(sh, body); }
  }

  /** The two deletions that take a comment of that shape off. */
  function OffEdits(ls: nat, sh: Shape): seq<Edit> {
    var i := ls + |sh.left|;
    [Edit(i, 4 + |sh.x|, [], EditKind.Open), Edit(i + 4 + |sh.x| + |sh.core|, |sh.y| + 3, [], EditKind.Close)]
  }

  lemma {:induction false} UncommentIs(l: Line, sh: Shape)
    requires sh.Valid() && sh.Whole() == l.body && MatchOneLine(l.body).OneLine?
    ensures Uncomment(l) == OffEdits(l.ls, sh)
  {
    ShapeMatches(sh, l.body);
  }

  lemma {:induction false} UncommentEdits(l: Line, raw: Str, sh: Shape, es: seq<Edit>)
    requires l.body == WithoutReturn(raw) && sh.Valid() && sh.Whole() == l.body && es == OffEdits(l.ls, sh)
    requires Pair(es, l.ls, l.ls + |raw|)
    ensures EditLine(raw, l.ls, es) == sh.Kept() + raw[|l.body|..]
  {
    var i, j := |sh.left|, |sh.left| + 4 + |sh.x|;
    var k, e := j + |sh.core|, j + |sh.core| + |sh.y| + 3;
    CutKept(raw, l.ls, l.body, es, sh, i, j, k, e);
  }

  lemma {:induction false} CutKept(raw: Str, ls: nat, body: Str, es: seq<Edit>, sh: Shape, i: nat, j: nat, k: nat,
        e: nat)
    requires body == WithoutReturn(raw) && sh.Whole() == body && Pair(es, ls, ls + |raw|)
    requires i == |sh.left| && j == i + 4 + |sh.x| && k == j + |sh.core| && e == |body| - |sh.right| && k <= e
    requires es == [Edit(ls + i, j - i, [], EditKind.Open), Edit(ls + k, e - k, [], EditKind.Close)]
    ensures EditLine(raw, ls, es) == sh.Kept() + raw[|body|..]
  {
    var end := raw[|body|..];
    assert e <= |raw| && raw[..i] == sh.left && raw[j..k] == sh.core && raw[e..] == sh.right + end by {
      RawParts(sh, body, raw);
    }
    CutLine(raw, ls, es, i, j, k, e);
    KeptThenEnd(sh, end);
  }

  lemma {:induction false} KeptThenEnd(sh: Shape, end: Str)
    ensures sh.Kept() + end == sh.left + (sh.core + (sh.right + end))
  {
    Associate(sh.core, sh.right, end);
    Associate(sh.left, sh.core + sh.right, end);
  }

  lemma {:induction false} RawParts(sh: Shape, body: Str, raw: Str)
    requires body == WithoutReturn(raw) && sh.Whole() == body
    ensures var i, j := |sh.left|, |sh.left| + 4 + |sh.x|;
      var k, e := j + |sh.core|, |body| - |sh.right|;
      j <= k <= e <= |body| && raw[..i] == sh.left && raw[j..k] == sh.core && raw[e..] == sh.right + raw[|body|..]
  {
    var i, j := |sh.left|, |sh.left| + 4 + |sh.x|;
    var k, e := j + |sh.core|, |body| - |sh.right|;
    ShapeParts(sh, body);
    var n := |body|;
    assert body == raw[..n] && raw[..i] == body[..i] && raw[e..] == raw[e..n] + raw[n..];
    assert forall m :: 0 <= m < n ==> body[m] == raw[m];
    assert raw[j..k] == body[j..k] && raw[e..n] == body[e..];
  }

  lemma {:induction false} CutLine(raw: Str, ls: nat, es: seq<Edit>, i: nat, j: nat, k: nat, e: nat)
    requires i <= j <= k <= e <= |raw| && Pair(es, ls, ls + |raw|)
    requires es == [Edit(ls + i, j - i, [], EditKind.Open), Edit(ls + k, e - k, [], EditKind.Close)]
    ensures EditLine(raw, ls, es) == raw[..i] + (raw[j..k] + raw[e..])
  {
    assert [] + raw[e..] == raw[e..];
    assert [] + (raw[j..k] + raw[e..]) == raw[j..k] + raw[e..];
  }

  lemma {:induction false} LineTaken(t: Str, ranges: seq<Range>, l: Line, raw: Str)
    requires l.body == WithoutReturn(raw) && l.kind == KindOf(t, ranges, l.ls, l.body)
    requires Pair(EditsOfLine(l, false), l.ls, l.ls + |raw|)
    ensures Becomes(t, ranges, l.ls, raw, EditLine(raw, l.ls, EditsOfLine(l, false)), false)
  {
    var es, end := EditsOfLine(l, false), raw[|l.body|..];
    assert l.body + end == raw;
    if l.kind.Commented? { ShapesTaken(t, ranges, l, raw, es, end); }
    TakenFrom(t, ranges, l.ls, l.body, end, EditLine(raw, l.ls, es));
  }

  lemma {:induction false} ShapesTaken(t: Str, ranges: seq<Range>, l: Line, raw: Str, es: seq<Edit>, end: Str)
    requires l.body == WithoutReturn(raw) && l.kind == KindOf(t, ranges, l.ls, l.body) && l.kind.Commented?
    requires end == raw[|l.body|..] && es == EditsOfLine(l, false) && Pair(es, l.ls, l.ls + |raw|)
    ensures forall sh: Shape :: sh.Valid() && sh.Whole() == l.body ==> EditLine(raw, l.ls, es) == sh.Kept() + end
  {
    KindHasMatch(t, ranges, l.ls, l.body);
    forall sh: Shape | sh.Valid() && sh.Whole() == l.body ensures EditLine(raw, l.ls, es) == sh.Kept() + end {
      ShapeTaken(l, raw, sh, es);
    }
  }

  lemma {:induction false} KindHasMatch(t: Str, ranges: seq<Range>, ls: nat, body: Str)
    requires KindOf(t, ranges, ls, body).Commented?
    ensures MatchOneLine(body).OneLine?
  {
  }

  lemma {:induction false} TakenFrom(t: Str, ranges: seq<Range>, ls: nat, body: Str, end: Str, after: Str)
    requires !KindOf(t, ranges, ls, body).Commented? ==> after == body + end
    requires KindOf(t, ranges, ls, body).Commented? ==>
      forall sh: Shape :: sh.Valid() && sh.Whole() == body ==> after == sh.Kept() + end
    ensures TakenOff(t, ranges, ls, body, end, after)
  {
    CommentedKind(t, ranges, ls, body);
    OneCommentShape(body);
  }

  lemma {:induction false} ShapeTaken(l: Line, raw: Str, sh: Shape, es: seq<Edit>)
    requires l.body == WithoutReturn(raw) && sh.Valid() && sh.Whole() == l.body && l.kind.Commented?
    requires MatchOneLine(l.body).OneLine? && es == EditsOfLine(l, false) && Pair(es, l.ls, l.ls + |raw|)
    ensures EditLine(raw, l.ls, es) == sh.Kept() + raw[|l.body|..]
  {
    assert es == OffEdits(l.ls, sh) by { UncommentIs(l, sh); }
    UncommentEdits(l, raw, sh, es);
  }

  lemma {:induction false} IndentIs(body: Str, lead: Str, rest: Str)
    requires Indented(body, lead, rest)
    ensures Indent(body) == |lead| && body[..|lead|] == lead && body[|lead|..] == rest
  {
    assert forall k :: 0 <= k < |lead| ==> body[k] == lead[k];
    assert rest != [] ==> body[|lead|] == rest[0];
    RunEndIs(body, 0, |lead|, TabOrSpace);
  }

  lemma {:induction false} LinePut(t: Str, ranges: seq<Range>, l: Line, raw: Str)
    requires LineFits(l, raw, l.ls) && l.kind == KindOf(t, ranges, l.ls, l.body)
    requires Pair(EditsOfLine(l, true), l.ls, l.ls + |raw|)
    ensures Becomes(t, ranges, l.ls, raw, EditLine(raw, l.ls, EditsOfLine(l, true)), true)
  {
    var after, end := EditLine(raw, l.ls, EditsOfLine(l, true)), raw[|l.body|..];
    CommentedKind(t, ranges, l.ls, l.body);
    assert l.body + end == raw;
    if l.kind.Plain? {
      CommentLine(l, raw, l.ls);
      forall lead, rest | Indented(l.body, lead, rest)
        ensures after == lead + ([0x3C, 0x21, 0x2D, 0x2D, 0x20] + (rest + ([0x20, 0x2D, 0x2D, 0x3E] + end)))
      {
        IndentIs(l.body, lead, rest);
        Associate(lead, OPEN + (rest + CLOSE), end);
        Associate(OPEN, rest + CLOSE, end);
        Associate(rest, CLOSE, end);
      }
    }
  }

  // ----- the region ----------------------------------------------------------------------------------------

  lemma {:induction false} RegionIs(t: Str, a: nat, b: nat)
    requires a <= b <= |t|
    ensures RegionEnd(t, a, b) == TouchedEnd(t, a, b)
  {
    if b > a {
      if t[b - 1] == LF { LineStartIs(t, b, b); } else { BreakIs(t, b - 1, NextBreak(t, b)); }
    }
  }

  /** What a toggle that did something did. */
  lemma {:induction false} ToggleDid(scan: Scanner, unclosed: Str -> int, t: Str, start: nat, end: nat, a: nat, b: nat)
    requires start <= end <= |t|
    ensures var r := LineToggle(scan, unclosed, t, start, end, a, b);
      var lines := RegionLines(t, scan(t), start, end);
      r.status == CommentedOut || r.status == Uncommented ==>
        && (r.status == CommentedOut <==> HasKind(lines, Plain)) && Ordered(LineEdits(lines), start, end)
        && r.replacement == Apply(t, start, end, LineEdits(lines))
  {
    LineEditsOrdered(t, scan(t), start, end);
  }

  ghost predicate AllBecome(t: Str, ranges: seq<Range>, start: nat, raws: seq<Str>, after: seq<Str>, commenting: bool) {
    |after| == |raws| &&
    forall k :: 0 <= k < |raws| ==> Becomes(t, ranges, start + Offset(raws, k), raws[k], after[k], commenting)
  }

  lemma {:induction false} LinesBecome(t: Str, ranges: seq<Range>, start: nat, raws: seq<Str>, lines: seq<Line>,
        commenting: bool)
    requires lines == LinesFrom(KindsOf(t, ranges), start, raws) && Fits(lines, raws, start)
    ensures AllBecome(t, ranges, start, raws, LinesAfter(lines, raws, start, commenting), commenting)
  {
    var after := LinesAfter(lines, raws, start, commenting);
    forall k | 0 <= k < |raws|
      ensures Becomes(t, ranges, start + Offset(raws, k), raws[k], after[k], commenting)
    {
      LineBecomes(t, ranges, KindsOf(t, ranges), start, raws, lines, commenting, after, k);
    }
  }

  lemma {:induction false} LineBecomes(t: Str, ranges: seq<Range>, kindAt: KindAt, start: nat, raws: seq<Str>,
        lines: seq<Line>, commenting: bool, after: seq<Str>, k: nat)
    requires kindAt == KindsOf(t, ranges) && lines == LinesFrom(kindAt, start, raws) && Fits(lines, raws, start)
    requires after == LinesAfter(lines, raws, start, commenting) && k < |raws|
    ensures Becomes(t, ranges, start + Offset(raws, k), raws[k], after[k], commenting)
  {
    var l, ls := lines[k], start + Offset(raws, k);
    assert LineFits(l, raws[k], ls) && Pair(EditsOfLine(l, commenting), ls, ls + |raws[k]|)
      && after[k] == EditLine(raws[k], ls, EditsOfLine(l, commenting)) by {
      LinesAfterAt(lines, raws, start, commenting, k);
    }
    KindAtLine(kindAt, start, raws, k, ls, l);
    OneBecomes(t, ranges, ls, l, raws[k], commenting, after[k]);
  }

  lemma {:induction false} KindAtLine(kindAt: KindAt, start: nat, raws: seq<Str>, k: nat, ls: nat, l: Line)
    requires k < |raws| && ls == start + Offset(raws, k) && l == LinesFrom(kindAt, start, raws)[k]
    ensures l.kind == kindAt(ls, l.body)
  {
    LinesFromAt(kindAt, start, raws, k);
  }

  lemma {:induction false} OneBecomes(t: Str, ranges: seq<Range>, ls: nat, l: Line, raw: Str, commenting: bool,
        now: Str)
    requires LineFits(l, raw, ls) && Pair(EditsOfLine(l, commenting), ls, ls + |raw|)
    requires now == EditLine(raw, ls, EditsOfLine(l, commenting)) && l.kind == KindOf(t, ranges, ls, l.body)
    ensures Becomes(t, ranges, ls, raw, now, commenting)
  {
    if commenting { LinePut(t, ranges, l, raw); } else { LineTaken(t, ranges, l, raw); }
  }

  /**
    Every press that does something: the region is the lines that the selection touches; a comment goes on every
    line that can take one, or, when there is none, comes off every line that is nothing but one; every other line and
    every break stays.
   */
  lemma {:induction false} PressedLines(scan: Scanner, unclosed: Str -> int, t: Str, a: nat, b: nat)
    returns (after: seq<Str>)
    requires a <= b <= |t| && ToggleLineStyle(scan, unclosed, t, a, b).status in {CommentedOut, Uncommented}
    ensures var r := ToggleLineStyle(scan, unclosed, t, a, b);
      && r.start == LineStart(t, a) && r.end == TouchedEnd(t, a, b) && r.start <= r.end <= |t|
      && var raws := SplitLines(t[r.start..r.end]);
      && AllBecome(t, scan(t), r.start, raws, after, r.status == CommentedOut)
      && after != [] && r.replacement == JoinLines(after)
  {
    var start, end := LineStart(t, a), RegionEnd(t, a, b);
    RegionIs(t, a, b);
    StyleIsToggle(scan, unclosed, t, a, b);
    after := RegionBecomes(scan, unclosed, t, start, end, a, b);
  }

  lemma {:induction false} RegionBecomes(scan: Scanner, unclosed: Str -> int, t: Str, start: nat, end: nat, a: nat,
        b: nat)
    returns (after: seq<Str>)
    requires start <= end <= |t|
    requires LineToggle(scan, unclosed, t, start, end, a, b).status in {CommentedOut, Uncommented}
    ensures var r := LineToggle(scan, unclosed, t, start, end, a, b);
      && AllBecome(t, scan(t), start, SplitLines(t[start..end]), after, r.status == CommentedOut)
      && after != [] && r.replacement == JoinLines(after)
  {
    var ranges, raws := scan(t), SplitLines(t[start..end]);
    var lines := RegionLines(t, ranges, start, end);
    var commenting := HasKind(lines, Plain);
    ToggleDid(scan, unclosed, t, start, end, a, b);
    JoinSplit(t[start..end]);
    KindsSound(t, ranges);
    LinesFit(KindsOf(t, ranges), start, raws);
    ApplyLines(t, lines, raws, start, end, commenting);
    after := LinesAfter(lines, raws, start, commenting);
    LinesBecome(t, ranges, start, raws, lines, commenting);
  }
}
