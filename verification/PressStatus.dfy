/** What a press of Ctrl+/ answers, and why, told from the lines: which of them can be toggled decides it. */
module PressStatus {
  import opened Text
  import opened Markers
  import opened LineCalculus
  import opened CommentToggle
  import opened CommentBlock
  import opened LineForms
  import opened PressedText

  // ----- one comment per line ------------------------------------------------------------------------------

  /** A line that can take a comment. */
  ghost predicate CanComment(t: Str, ranges: seq<Range>, ls: nat, body: Str) {
    !LeftAlone(t, ranges, ls, body) && !HasArrow(body)
  }

  /** A line that is nothing but one comment. */
  ghost predicate CanUncomment(t: Str, ranges: seq<Range>, ls: nat, body: Str) {
    !LeftAlone(t, ranges, ls, body) && exists sh: Shape :: sh.Valid() && sh.Whole() == body
  }

  ghost predicate TagAlone(body: Str) { !AllSpace(body) && !HasMarker(body) && IsTagLine(body) }

  /** Some line of the region passes. */
  ghost predicate SomeLine(raws: seq<Str>, start: nat, kindAt: KindAt, kind: Kind) {
    exists k :: 0 <= k < |raws| && kindAt(start + Offset(raws, k), WithoutReturn(raws[k])) == kind
  }

  lemma {:induction false} KindsMean(t: Str, ranges: seq<Range>, ls: nat, body: Str)
    ensures KindOf(t, ranges, ls, body) == Plain <==> CanComment(t, ranges, ls, body)
    ensures KindOf(t, ranges, ls, body) == Commented <==> CanUncomment(t, ranges, ls, body)
    ensures KindOf(t, ranges, ls, body) == Tag <==> TagAlone(body)
  {
    CommentedKind(t, ranges, ls, body);
    OneCommentShape(body);
  }

  lemma {:induction false} HasKindIs(raws: seq<Str>, start: nat, kindAt: KindAt, kind: Kind)
    ensures HasKind(LinesFrom(kindAt, start, raws), kind) <==> SomeLine(raws, start, kindAt, kind)
  {
    var lines := LinesFrom(kindAt, start, raws);
    forall k | 0 <= k < |raws| ensures lines[k].kind == kindAt(start + Offset(raws, k), WithoutReturn(raws[k])) {
      LinesFromAt(kindAt, start, raws, k);
    }
  }

  /**
    With a line that can take a comment the press comments out; with none, but one that is a comment, it uncomments;
    with neither it does nothing, and says so of tag lines. A refusal blames an unclosed comment before the end.
   */
  lemma {:induction false} LineAnswer(scan: Scanner, unclosed: Str -> int, t: Str, start: nat, end: nat, a: nat, b: nat,
        raws: seq<Str>, kindAt: KindAt, r: Toggle)
    requires start <= end <= |t| && raws == SplitLines(t[start..end]) && kindAt == KindsOf(t, scan(t))
    requires r == LineToggle(scan, unclosed, t, start, end, a, b)
    ensures r.status == Nothing <==> !SomeLine(raws, start, kindAt, Plain) && !SomeLine(raws, start, kindAt, Commented)
    ensures r.status == Nothing ==> r.reason == if SomeLine(raws, start, kindAt, Tag) then Tags else NoReason
    ensures r.status == CommentedOut ==> SomeLine(raws, start, kindAt, Plain) && r.reason == NoReason
    ensures r.status == Uncommented ==>
      !SomeLine(raws, start, kindAt, Plain) && SomeLine(raws, start, kindAt, Commented) && r.reason == NoReason
    ensures r.status == Refused ==> r.reason == if 0 <= unclosed(t) < end || unclosed(t) < -1 then Unclosed else Unsafe
  {
    HasKindIs(raws, start, kindAt, Plain);
    HasKindIs(raws, start, kindAt, Commented);
    HasKindIs(raws, start, kindAt, Tag);
    LineEditsOrdered(t, scan(t), start, end);
  }

  // ----- one comment around the lines ----------------------------------------------------------------------

  ghost predicate TouchesComment(ranges: seq<Range>, s: nat, e: nat) {
    exists i :: 0 <= i < |ranges| && ranges[i].start < e && s < ranges[i].end
  }

  /** What the block style does with a text in its region. */
  ghost predicate InnerAnswer(ranges: seq<Range>, inner: Str, s: nat, e: nat, step: Step) {
    if IsWholeComment(inner) then step.Try? && step.status == Uncommented
    else if HasMarker(inner) then step == Stop(Refused, HasMarkers)
    else if HasArrow(inner) then step == Stop(Refused, Terminator)
    else if TouchesComment(ranges, s, e) then step == Stop(Refused, Overlap)
    else step.Try? && step.status == CommentedOut
  }

  lemma {:induction false} InnerAnswers(ranges: seq<Range>, inner: Str, s: nat, e: nat)
    ensures InnerAnswer(ranges, inner, s, e, InsideOf(ranges)(inner, s, e))
  {
    if Touches(ranges, s, e) {
      var k :| 0 <= k < |ranges| && ranges[k].start < e && s < ranges[k].end;
    }
  }

  /** Exactly one comment: a "<!--" at the front, the first "-->" that can close it at the end, and no marker. */
  lemma {:induction false} WholeCommentIs(inner: Str)
    ensures IsWholeComment(inner) <==>
      |inner| >= 7 && OpensAt(inner, 0) && ArrowAt(inner, |inner| - 3) && !HasMarker(inner) &&
      forall k: nat :: 2 <= k < |inner| - 3 ==> !ArrowAt(inner, k)
  {
  }

  ghost predicate SomeTagLine(lines: seq<Str>) { exists k :: 0 <= k < |lines| && IsTagLine(lines[k]) }

  ghost predicate AllTagsOrBlank(lines: seq<Str>) {
    forall k :: 0 <= k < |lines| ==> IsTagLine(lines[k]) || AllSpace(lines[k])
  }

  /** Blank lines alone are nothing to do; tag lines alone are left, and among others they refuse it. */
  lemma {:induction false} BlockAnswer(ranges: seq<Range>, region: Str, start: nat, left: Str, inner: Str, right: Str,
        step: Step)
    requires region == left + (inner + right) && AllSpace(left) && AllSpace(right)
    requires inner != [] ==> !IsSpace(inner[0]) && !IsSpace(inner[|inner| - 1])
    requires step == RegionStep(ranges, region, start)
    ensures inner == [] ==> step == Stop(Nothing, NoReason)
    ensures inner != [] && SomeTagLine(SplitLines(region)) ==>
      step == Stop(if AllTagsOrBlank(SplitLines(region)) then Nothing else Refused, Tags)
    ensures inner != [] && !SomeTagLine(SplitLines(region)) ==>
      InnerAnswer(ranges, inner, start + |left|, start + |left| + |inner|, step)
  {
    if inner == [] {
      AllBlank(region, left, right);
    } else {
      InnerAnswers(ranges, inner, start + |left|, start + |left| + |inner|);
      CoreAnswer(InsideOf(ranges), HasTagLine(region), OnlyTagLines(region), region, start, left, inner, right, step);
      TagLinesAre(region, SplitLines(region));
    }
  }

  lemma {:induction false} TagLinesAre(region: Str, lines: seq<Str>)
    requires lines == SplitLines(region)
    ensures HasTagLine(region) <==> SomeTagLine(lines)
    ensures OnlyTagLines(region) <==> AllTagsOrBlank(lines)
  {
  }

  lemma {:induction false} AllBlank(region: Str, left: Str, right: Str)
    requires region == left + ([] + right) && AllSpace(left) && AllSpace(right)
    ensures RunEnd(region, 0, IsSpace) == |region|
  {
    assert region == left + right;
    RunEndIs(region, 0, |region|, IsSpace);
  }

  lemma {:induction false} CoreAnswer(inside: Inside, tagged: bool, onlyTags: bool, region: Str, start: nat,
        left: Str, inner: Str, right: Str, step: Step)
    requires region == left + (inner + right) && AllSpace(left) && AllSpace(right)
    requires inner != [] && !IsSpace(inner[0]) && !IsSpace(inner[|inner| - 1])
    requires step == StepWith(inside, tagged, onlyTags, region, start)
    ensures step == if tagged then Stop(if onlyTags then Nothing else Refused, Tags)
                    else inside(inner, start + |left|, start + |left| + |inner|)
  {
    CoreStands(region, left, inner, right);
  }

  lemma {:induction false} CoreStands(region: Str, left: Str, inner: Str, right: Str)
    requires region == left + (inner + right) && AllSpace(left) && AllSpace(right)
    requires inner != [] && !IsSpace(inner[0]) && !IsSpace(inner[|inner| - 1])
    ensures var i, j := |left|, |left| + |inner|;
      RunEnd(region, 0, IsSpace) == i < |region| && RunStart(region, |region|, IsSpace) == j && region[i..j] == inner
  {
    var i, j := |left|, |left| + |inner|;
    assert forall k :: 0 <= k < i ==> region[k] == left[k];
    assert forall k :: j <= k < |region| ==> region[k] == right[k - j];
    assert region[i] == inner[0] && region[j - 1] == inner[|inner| - 1];
    RunEndIs(region, 0, i, IsSpace);
    RunStartIs(region, |region|, j, IsSpace);
  }
}
