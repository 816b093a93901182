/** Toggling twice in the block style: exactly when the text and the selection come back. */
module BlockTheorem {
  import opened Text
  import opened Markers
  import opened EditCalculus
  import opened CommentToggle
  import opened ToggleTwice
  import opened RegionCarry
  import opened ToggleTheorem
  import opened CommentBlock
  import opened BlockCondition
  import opened CommentMarkers

  // ----- the comment written is read back ------------------------------------------------------------------

  /** What stands around a text that neither starts nor ends with white space. */
  lemma {:induction false} BlockTextEnds(inner: Str)
    requires inner != [] && !IsSpace(inner[0]) && !IsSpace(inner[|inner| - 1])
    ensures var x := BlockText(inner);
      && OpensAt(x, 0) && ArrowAt(x, |x| - 3) && x[4] == SPACE && x[5] == inner[0]
      && x[|x| - 4] == SPACE && x[|x| - 5] == inner[|inner| - 1]
  {
    var x, n := BlockText(inner), |inner|;
    assert x[0] == OPEN[0] && x[1] == OPEN[1] && x[2] == OPEN[2] && x[3] == OPEN[3];
    assert x[n + 5] == CLOSE[0] && x[n + 6] == CLOSE[1] && x[n + 7] == CLOSE[2] && x[n + 8] == CLOSE[3];
    assert x[5 + (n - 1)] == inner[n - 1];
  }

  /** One blank goes with each end. */
  lemma {:induction false} InnerBounds(inner: Str)
    requires inner != [] && !IsSpace(inner[0]) && !IsSpace(inner[|inner| - 1])
    ensures |BlockText(inner)| >= 7
    ensures InnerFrom(BlockText(inner)) == 5 && InnerTo(BlockText(inner), 5) == |inner| + 5
  {
    var x := BlockText(inner);
    BlockTextEnds(inner);
    BlockFrom(x);
    BlockTo(x);
  }

  lemma {:induction false} BlockFrom(x: Str)
    requires |x| >= 7 && x[4] == SPACE && !IsSpace(x[5])
    ensures InnerFrom(x) == 5
  {
    var nl := NextBreak(x, 4);
    assert nl < |x| ==> !TabSpaceOrReturn(x[5]) && 5 < nl;
  }

  lemma {:induction false} BlockTo(x: Str)
    requires |x| >= 10 && x[|x| - 4] == SPACE && !IsSpace(x[|x| - 5])
    ensures InnerTo(x, 5) == |x| - 4
  {
    var end := |x| - 3;
    var ls := LineStart(x, end);
    assert ls < end;
    assert x[ls..end] != [] && ls <= end - 2;
    assert !TabOrSpace(x[end - 2]);
  }

  // ----- the step that comments out, and the next one ------------------------------------------------------

  lemma {:induction false} InnerCommenting(ranges: seq<Range>, inner: Str, s: nat, e: nat)
    requires InnerStep(ranges, inner, s, e).Try? && InnerStep(ranges, inner, s, e).status == CommentedOut
    ensures InnerStep(ranges, inner, s, e) == Try(BlockComment(s, e), [], [Range(s, s + 5 + |inner| + 4)], CommentedOut)
    ensures !HasArrow(inner) && !HasMarker(inner)
  {
  }

  lemma {:induction false} CommentingStep(inside: Inside, tagged: bool, onlyTags: bool, ranges: seq<Range>,
        region: Str, start: nat, step: Step)
      returns (first: nat, last: nat)
    requires inside == InsideOf(ranges) && step == StepWith(inside, tagged, onlyTags, region, start)
    requires step.Try? && step.status == CommentedOut
    ensures CanWrap(region, first, last)
    ensures step == Try(BlockComment(start + first, start + last), [], [Range(start + first, start + last + 9)],
      CommentedOut)
  {
    first, last := RunEnd(region, 0, IsSpace), RunStart(region, |region|, IsSpace);
    CoreBounds(region);
    var inner := region[first..last];
    StepOfCore(inside, tagged, onlyTags, region, start, first, last, inner, step);
    assert step == InnerStep(ranges, inner, start + first, start + last);
    InnerCommenting(ranges, inner, start + first, start + last);
  }

  /** The two deletions that take a comment off again. */
  function TakeOff(s: nat, inner: Str): seq<Edit> {
    [Edit(s, 5, [], EditKind.Open), Edit(s + 5 + |inner|, 4, [], EditKind.Close)]
  }

  /** The step that takes a comment off. */
  function TakenOff(ranges2: seq<Range>, inner: Str, s: nat, e2: nat): Step {
    Try(TakeOff(s, inner), Exactly(ranges2, s, e2), [], Uncommented)
  }

  /** Whether the next step sees a marker or a tag line, or the comment. */
  ghost predicate StopsOr(stops: bool, step: Step, off: Step) {
    if stops then step.Stop? else step == off
  }

  lemma {:induction false} InnerTakenOff(ranges2: seq<Range>, inner: Str, s: nat, e2: nat, marked: bool, step: Step)
    requires inner != [] && !IsSpace(inner[0]) && !IsSpace(inner[|inner| - 1]) && !HasArrow(inner)
    requires marked == HasMarker(BlockText(inner)) && step == InsideOf(ranges2)(BlockText(inner), s, e2)
    ensures StopsOr(marked, step, TakenOff(ranges2, inner, s, e2))
  {
    BlockTextEnds(inner);
    NoArrowInside(inner);
    InnerBounds(inner);
  }

  /** White space, a core, white space. */
  lemma {:induction false} CoreOf(left: Str, core: Str, right: Str, region: Str)
    requires AllSpace(left) && AllSpace(right) && core != [] && !IsSpace(core[0]) && !IsSpace(core[|core| - 1])
    requires region == left + (core + right)
    ensures RunEnd(region, 0, IsSpace) == |left| && RunStart(region, |region|, IsSpace) == |left| + |core|
    ensures region[|left|..|left| + |core|] == core
  {
    var n, m := |left|, |left| + |core|;
    assert forall k :: 0 <= k < n ==> region[k] == left[k];
    assert region[n] == core[0] && region[m - 1] == core[|core| - 1];
    assert forall k :: m <= k < |region| ==> region[k] == right[k - m];
    RunEndIs(region, 0, n, IsSpace);
    RunStartIs(region, |region|, m, IsSpace);
  }

  /** A region whose text stands at [first, last), and what it is with the comment around that text. */
  datatype Wrap = Wrap(region: Str, first: nat, last: nat, inner: Str, written: Str) {
    ghost predicate Valid() {
      && CanWrap(region, first, last) && inner == region[first..last]
      && written == region[..first] + (BlockText(inner) + region[last..])
    }
  }

  /** The text of the region that the first step wrote is the comment. */
  lemma {:induction false} CoreWritten(g: Wrap, text: Str)
    requires g.Valid() && text == BlockText(g.inner)
    ensures g.inner != [] && !IsSpace(g.inner[0]) && !IsSpace(g.inner[|g.inner| - 1]) && !HasArrow(g.inner)
    ensures IsCore(g.written, g.first, g.last + 9, text)
  {
    var left, right := g.region[..g.first], g.region[g.last..];
    Around(g.region, g.first, g.last, left, g.inner, right);
    assert !IsSpace(text[0]) && !IsSpace(text[|text| - 1]) by { CommentEnds(g.inner, text); }
    CoreOf(left, text, right, g.written);
  }

  lemma {:induction false} Around(region: Str, first: nat, last: nat, left: Str, inner: Str, right: Str)
    requires CanWrap(region, first, last)
    requires left == region[..first] && inner == region[first..last] && right == region[last..]
    ensures AllSpace(left) && AllSpace(right) && inner != [] && !IsSpace(inner[0]) && !IsSpace(inner[|inner| - 1])
  {
    assert inner[0] == region[first] && inner[|inner| - 1] == region[last - 1];
    assert forall k :: 0 <= k < |left| ==> left[k] == region[k];
    assert forall k :: 0 <= k < |right| ==> right[k] == region[last + k];
  }

  lemma {:induction false} CommentEnds(inner: Str, text: Str)
    requires text == BlockText(inner)
    ensures text[0] == LESS && text[|text| - 1] == GREATER
  {
    BlockTextUnits(inner, 0);
    BlockTextUnits(inner, 3);
  }

  /** The step on a written region is about the comment in it. */
  lemma {:induction false} StepBack(inside: Inside, tagged: bool, onlyTags: bool, written: Str, first: nat, last: nat,
        text: Str, start: nat, s: nat, e2: nat, step: Step)
    requires IsCore(written, first, last, text) && s == start + first && e2 == start + last
    requires step == StepWith(inside, tagged, onlyTags, written, start)
    ensures if tagged then step.Stop? else step == inside(text, s, e2)
  {
    StepOfCore(inside, tagged, onlyTags, written, start, first, last, text, step);
  }

  /** It stops at a tag line or a marker, and takes the comment off otherwise. */
  lemma {:induction false} StepsBack(ranges2: seq<Range>, g: Wrap, start: nat, s: nat, e2: nat, tagged: bool,
        marked: bool, step: Step, off: Step)
    requires g.Valid() && marked == HasMarker(BlockText(g.inner))
    requires step == StepWith(InsideOf(ranges2), tagged, OnlyTagLines(g.written), g.written, start)
    requires s == start + g.first && e2 == start + (g.last + 9) && off == TakenOff(ranges2, g.inner, s, e2)
    ensures StopsOr(tagged || marked, step, off)
  {
    var inside, text := InsideOf(ranges2), BlockText(g.inner);
    var within := inside(text, s, e2);
    StepWithin(inside, g, start, s, e2, tagged, step, text, within);
    WithinBack(ranges2, g, s, e2, marked, within, off, text);
  }

  lemma {:induction false} StepWithin(inside: Inside, g: Wrap, start: nat, s: nat, e2: nat, tagged: bool, step: Step,
        text: Str, within: Step)
    requires g.Valid() && text == BlockText(g.inner) && within == inside(text, s, e2)
    requires s == start + g.first && e2 == start + (g.last + 9)
    requires step == StepWith(inside, tagged, OnlyTagLines(g.written), g.written, start)
    ensures (tagged ==> step.Stop?) && (!tagged ==> step == within)
  {
    assert IsCore(g.written, g.first, g.last + 9, text) by { CoreWritten(g, text); }
    StepBack(inside, tagged, OnlyTagLines(g.written), g.written, g.first, g.last + 9, text, start, s, e2, step);
  }

  lemma {:induction false} WithinBack(ranges2: seq<Range>, g: Wrap, s: nat, e2: nat, marked: bool, within: Step,
        off: Step, text: Str)
    requires g.Valid() && text == BlockText(g.inner) && marked == HasMarker(text)
    requires within == InsideOf(ranges2)(text, s, e2) && off == TakenOff(ranges2, g.inner, s, e2)
    ensures StopsOr(marked, within, off)
  {
    CoreWritten(g, text);
    InnerTakenOff(ranges2, g.inner, s, e2, marked, within);
  }

  // ----- the edits and their inverse -----------------------------------------------------------------------

  lemma {:induction false} BlockInsertions(s: nat, e: nat, start: nat, end: nat)
    requires start <= s < e <= end
    ensures var edits := BlockComment(s, e);
      && Ordered(edits, start, end) && Insertions(edits, start) && InsertsNoBreak(edits) && Inserted(edits) == 9
      && Inverse(edits, 0) == [Edit(s, 5, [], EditKind.Open), Edit(e + 5, 4, [], EditKind.Close)]
  {
    var d, c := BlockComment(s, e)[0], BlockComment(s, e)[1];
    assert BlockComment(s, e)[1..] == [c] && [c][1..] == [];
    PairInverse(d, c, 0);
  }

  lemma {:induction false} RegionWritten(t: Str, start: nat, end: nat, first: nat, last: nat, region: Str)
    requires start <= end <= |t| && region == t[start..end] && first < last <= |region|
    ensures Ordered(BlockComment(start + first, start + last), start, end)
    ensures Apply(t, start, end, BlockComment(start + first, start + last))
         == region[..first] + (BlockText(region[first..last]) + region[last..])
  {
    var s, e := start + first, start + last;
    var d, c := BlockComment(s, e)[0], BlockComment(s, e)[1];
    assert BlockComment(s, e)[1..] == [c] && [c][1..] == [];
    assert Apply(t, e, end, []) == t[e..end];
    assert Apply(t, s, end, [c]) == t[s..e] + (CLOSE + t[e..end]);
    SliceOfSlice(t, start, end, 0, first);
    SliceOfSlice(t, start, end, first, last);
    SliceOfSlice(t, start, end, last, |region|);
    assert region[last..] == region[last..|region|] && region[..first] == region[0..first];
    Associate(OPEN, t[s..e] + CLOSE, t[e..end]);
    Associate(t[s..e], CLOSE, t[e..end]);
  }

  lemma {:induction false} KeptSame(ranges: seq<Range>, a: seq<Range>, b: seq<Range>, edits: seq<Edit>)
    requires forall x :: x in ranges ==> (x in a <==> x in b)
    ensures Kept(ranges, a, edits) == Kept(ranges, b, edits)
  {
    if ranges != [] {
      assert ranges[0] in ranges;
      KeptSame(ranges[1..], a, b, edits);
    }
  }

  /** The structural check of the second step passes because that of the first did. */
  lemma {:induction false} SecondCheckPasses(t: Str, ranges: seq<Range>, edits: seq<Edit>, s: nat, e2: nat, t2: Str,
        ranges2: seq<Range>)
    requires Comments(t, ranges) && Comments(t2, ranges2) && Insertions(edits, 0)
    requires ranges2 == SortByStart(Kept(ranges, [], edits) + [Range(s, e2)])
    ensures ranges == SortByStart(Kept(ranges2, Exactly(ranges2, s, e2), Inverse(edits, 0)) + [])
  {
    var added := [Range(s, e2)];
    CommentsBack(t, ranges, edits, added, t2, ranges2);
    KeptSame(ranges2, Exactly(ranges2, s, e2), added, Inverse(edits, 0));
  }

  // ----- any steps that comment out and take off -----------------------------------------------------------

  lemma {:induction false} StepTakenOff(scan: Scanner, unclosed: Str -> int, t2: Str, start: nat, end2: nat, a2: nat,
        b2: nat, inv: seq<Edit>, removed: seq<Range>, t: Str, step: Step)
    requires start <= end2 <= |t2| && Ordered(inv, start, end2) && Edited(t2, start, end2, inv) == t
    requires step == Try(inv, removed, [], Uncommented) && scan(t) == SortByStart(Kept(scan(t2), removed, inv) + [])
    ensures var r := TakeStep(scan, unclosed, t2, start, end2, a2, b2, step);
      && r.start == start && r.end == end2 && r.status == Uncommented && NoteAfter(t2, r) == t
      && (r.selStart, r.selEnd) == MapSelection(a2, b2, inv)
  {
  }

  lemma {:induction false} StepStops(scan: Scanner, unclosed: Str -> int, t2: Str, start: nat, end2: nat, a2: nat,
        b2: nat, step: Step)
    requires start <= end2 <= |t2| && step.Stop?
    ensures var r := TakeStep(scan, unclosed, t2, start, end2, a2, b2, step);
      r.start == start && r.end == end2 && NoteAfter(t2, r) == t2
  {
  }

  /** A step that comments out, and whose check passes. */
  lemma {:induction false} StepPassed(scan: Scanner, unclosed: Str -> int, t: Str, start: nat, end: nat, a: nat, b: nat,
                                      step: Step, edits: seq<Edit>, added: seq<Range>)
    requires start <= end <= |t| && StepFits(step, start, end) && step == Try(edits, [], added, CommentedOut)
    requires TakeStep(scan, unclosed, t, start, end, a, b, step).status == CommentedOut
    ensures scan(Edited(t, start, end, edits)) == SortByStart(Kept(scan(t), [], edits) + added)
    ensures var r := TakeStep(scan, unclosed, t, start, end, a, b, step);
      && r.start == start && r.end == end && NoteAfter(t, r) == Edited(t, start, end, edits)
      && r.replacement == Apply(t, start, end, edits) && (r.selStart, r.selEnd) == MapSelection(a, b, edits)
  {
  }

  /** The second step, once the first one wrote the region: it stops, or takes off what was put on. */
  ghost predicate Answers(steps: Steps, t2: Str, start: nat, end2: nat, off: Step) {
    StopsOr(!BlockTakenBack(t2, start, end2), steps(t2, start, end2), off)
  }

  /** No line of a region reads as a tag line, and its text as no marker. */
  ghost predicate BlockTakenBack(t2: Str, start: nat, end2: nat) {
    start <= end2 <= |t2| && !HasTagLine(t2[start..end2]) && !HasMarker(CoreText(t2[start..end2]))
  }

  // ----- toggling twice ------------------------------------------------------------------------------------

  /** What the first toggle writes, and that the deletions restore it. */
  datatype Written = Written(t: Str, start: nat, end: nat, s: nat, e2: nat, edits: seq<Edit>, t2: Str, end2: nat,
        inv: seq<Edit>) {
    ghost predicate Valid() {
      && Grown(t, start, end, edits, t2).Valid() && end2 == end + Inserted(edits) <= |t2| && |t2| > |t|
      && inv == Inverse(edits, 0) && Ordered(inv, start, end2) && Edited(t2, start, end2, inv) == t
    }

    function Added(): seq<Range> { [Range(s, e2)] }
  }

  lemma {:induction false} WrittenBy(t: Str, start: nat, end: nat, first: nat, last: nat, region: Str, inner: Str)
    returns (w: Written)
    requires start <= end <= |t| && region == t[start..end] && first < last <= |region| && inner == region[first..last]
    ensures w == Written(t, start, end, start + first, start + last + 9, BlockComment(start + first, start + last),
      w.t2, end + 9, TakeOff(start + first, inner))
    ensures w.Valid() && w.t2[start..w.end2] == region[..first] + (BlockText(inner) + region[last..])
  {
    var edits := BlockComment(start + first, start + last);
    BlockInsertions(start + first, start + last, start, end);
    GrownBy(t, start, end, edits);
    var t2 := Edited(t, start, end, edits);
    InsertThenDelete(t, start, end, edits, end + 9);
    RegionWritten(t, start, end, first, last, region);
    ThreeSlices(t[..start], Apply(t, start, end, edits), t[end..]);
    EndTwo(Grown(t, start, end, edits, t2));
    w := Written(t, start, end, start + first, start + last + 9, edits, t2, end + 9, TakeOff(start + first, inner));
  }

  /** A key press on a text with a selection. */
  type KeyPress = (Str, int, int) -> Toggle

  ghost predicate Bounded(press: KeyPress) {
    forall t, a, b :: press(t, a, b).start <= press(t, a, b).end <= |t|
  }

  /**
    The second key press gives back text and selection exactly when the comment can be taken off; else it changes
    nothing.
   */
  ghost predicate RoundTrip(press: KeyPress, t: Str, a: nat, b: nat)
    requires Bounded(press)
  {
    var r := press(t, a, b);
    var t2 := NoteAfter(t, r);
    Trips(t, a, b, t2, press(t2, r.selStart, r.selEnd), ComesOff(t[r.start..r.end]))
  }

  ghost predicate Trips(t: Str, a: nat, b: nat, t2: Str, back: Toggle, good: bool) {
    && back.start <= back.end <= |t2|
    && (NoteAfter(t2, back) == t <==> good)
    && (good ==> back.status == Uncommented && back.selStart == a && back.selEnd == b)
    && (!good ==> NoteAfter(t2, back) == t2)
  }

  lemma {:induction false} SecondPress(steps: Steps, scan: Scanner, unclosed: Str -> int, w: Written, a2: nat,
        b2: nat, off: Step)
    requires CommentScanner(scan) && Fitting(steps) && w.Valid() && Answers(steps, w.t2, w.start, w.end2, off)
    requires scan(w.t2) == SortByStart(Kept(scan(w.t), [], w.edits) + w.Added())
    requires off == Try(w.inv, Exactly(scan(w.t2), w.s, w.e2), [], Uncommented)
    ensures var back := ToggleWith(steps, scan, unclosed, w.t2, w.start, w.end2, a2, b2);
      && back.start == w.start && back.end == w.end2
      && if BlockTakenBack(w.t2, w.start, w.end2)
         then back.status == Uncommented && NoteAfter(w.t2, back) == w.t &&
           (back.selStart, back.selEnd) == MapSelection(a2, b2, w.inv)
         else NoteAfter(w.t2, back) == w.t2
  {
    var step := steps(w.t2, w.start, w.end2);
    if BlockTakenBack(w.t2, w.start, w.end2) {
      var removed := Exactly(scan(w.t2), w.s, w.e2);
      assert scan(w.t) == SortByStart(Kept(scan(w.t2), removed, w.inv) + []) by {
        assert Comments(w.t, scan(w.t)) && Comments(w.t2, scan(w.t2));
        SecondCheckPasses(w.t, scan(w.t), w.edits, w.s, w.e2, w.t2, scan(w.t2));
      }
      StepTakenOff(scan, unclosed, w.t2, w.start, w.end2, a2, b2, w.inv, removed, w.t, step);
    } else {
      StepStops(scan, unclosed, w.t2, w.start, w.end2, a2, b2, step);
    }
  }

  lemma {:induction false} StyleIs(steps: Steps, scan: Scanner, unclosed: Str -> int, t: Str, a: nat, b: nat)
    requires Fitting(steps) && a <= b <= |t|
    ensures StyleWith(steps, scan, unclosed, t, a, b) == ToggleWith(steps, scan, unclosed, t, LineStart(t, a),
      RegionEnd(t, a, b), a, b)
  {
  }

  /** What the first key press leaves. */
  lemma {:induction false} FirstPress(steps: Steps, scan: Scanner, unclosed: Str -> int, w: Written, a: nat, b: nat)
    requires Fitting(steps) && w.Valid() && a <= b <= |w.t| && w.start == LineStart(w.t, a) &&
      w.end == RegionEnd(w.t, a, b)
    requires steps(w.t, w.start, w.end) == Try(w.edits, [], w.Added(), CommentedOut)
    requires StyleWith(steps, scan, unclosed, w.t, a, b).status == CommentedOut
    ensures var r := StyleWith(steps, scan, unclosed, w.t, a, b);
      && r.start == w.start && NoteAfter(w.t, r) == w.t2 && r.start + |r.replacement| == w.end2
      && (r.selStart, r.selEnd) == MapSelection(a, b, w.edits)
    ensures scan(w.t2) == SortByStart(Kept(scan(w.t), [], w.edits) + w.Added())
  {
    StyleIs(steps, scan, unclosed, w.t, a, b);
    StepPassed(scan, unclosed, w.t, w.start, w.end, a, b, steps(w.t, w.start, w.end), w.edits, w.Added());
    EndTwo(Grown(w.t, w.start, w.end, w.edits, w.t2));
  }

  /** The mapped selection touches the region the first press wrote, and the deletions take it back. */
  lemma {:induction false} SelectionCarried(w: Written, a: nat, b: nat)
    requires w.Valid() && a <= b <= |w.t| && w.start == LineStart(w.t, a) && w.end == RegionEnd(w.t, a, b)
    ensures var sel := MapSelection(a, b, w.edits);
      && 0 <= sel.0 <= sel.1 <= |w.t2| && MapSelection(sel.0, sel.1, w.inv) == (a, b)
      && LineStart(w.t2, sel.0) == w.start && RegionEnd(w.t2, sel.0, sel.1) == w.end2
  {
    RegionTwo(Grown(w.t, w.start, w.end, w.edits, w.t2), a, b);
    SelectionBack(w.edits, a, b);
  }

  /** So the second press works on that region. */
  lemma {:induction false} SecondSelection(steps: Steps, scan: Scanner, unclosed: Str -> int, w: Written, a: nat,
        b: nat, a2: int, b2: int)
    requires Fitting(steps) && w.Valid() && a <= b <= |w.t| && w.start == LineStart(w.t, a) &&
      w.end == RegionEnd(w.t, a, b)
    requires (a2, b2) == MapSelection(a, b, w.edits)
    ensures 0 <= a2 && 0 <= b2 && MapSelection(a2, b2, w.inv) == (a, b)
    ensures StyleWith(steps, scan, unclosed, w.t2, a2, b2) == ToggleWith(steps, scan, unclosed, w.t2, w.start,
      w.end2, a2, b2)
  {
    assert 0 <= a2 <= b2 <= |w.t2| && MapSelection(a2, b2, w.inv) == (a, b) && LineStart(w.t2, a2) == w.start &&
      RegionEnd(w.t2, a2, b2) == w.end2 by {
      SelectionCarried(w, a, b);
    }
    StyleIs(steps, scan, unclosed, w.t2, a2, b2);
  }

  lemma {:induction false} Presses(steps: Steps, scan: Scanner, unclosed: Str -> int, w: Written, a: nat, b: nat,
        off: Step, good: bool)
    returns (r: Toggle, back: Toggle)
    requires CommentScanner(scan) && Fitting(steps) && w.Valid() && Answers(steps, w.t2, w.start, w.end2, off)
    requires a <= b <= |w.t| && w.start == LineStart(w.t, a) && w.end == RegionEnd(w.t, a, b)
    requires steps(w.t, w.start, w.end) == Try(w.edits, [], w.Added(), CommentedOut)
    requires StyleWith(steps, scan, unclosed, w.t, a, b).status == CommentedOut
    requires off == Try(w.inv, Exactly(scan(w.t2), w.s, w.e2), [], Uncommented) &&
      good == BlockTakenBack(w.t2, w.start, w.end2)
    ensures r == StyleWith(steps, scan, unclosed, w.t, a, b) && NoteAfter(w.t, r) == w.t2 && r.start == w.start &&
      r.start + |r.replacement| == w.end2
    ensures back == StyleWith(steps, scan, unclosed, w.t2, r.selStart, r.selEnd) && Trips(w.t, a, b, w.t2, back, good)
  {
    var sel := MapSelection(a, b, w.edits);
    r := StyleWith(steps, scan, unclosed, w.t, a, b);
    assert NoteAfter(w.t, r) == w.t2 && r.start == w.start && r.start + |r.replacement| == w.end2 &&
      r.selStart == sel.0 && r.selEnd == sel.1
        && scan(w.t2) == SortByStart(Kept(scan(w.t), [], w.edits) + w.Added()) by {
      FirstPress(steps, scan, unclosed, w, a, b);
    }
    assert 0 <= sel.0 && 0 <= sel.1 && MapSelection(sel.0, sel.1, w.inv) == (a, b) by {
      SecondSelection(steps, scan, unclosed, w, a, b, sel.0, sel.1);
    }
    back := ToggleWith(steps, scan, unclosed, w.t2, w.start, w.end2, sel.0, sel.1);
    assert back == StyleWith(steps, scan, unclosed, w.t2, sel.0, sel.1) by {
      SecondSelection(steps, scan, unclosed, w, a, b, sel.0, sel.1);
    }
    SecondPress(steps, scan, unclosed, w, sel.0, sel.1, off);
  }

  lemma {:induction false} RoundTripIs(press: KeyPress, t: Str, a: nat, b: nat, r: Toggle, t2: Str, back: Toggle,
        good: bool)
    requires Bounded(press) && r == press(t, a, b) && NoteAfter(t, r) == t2 && back == press(t2, r.selStart, r.selEnd)
    requires good == ComesOff(t[r.start..r.end]) && Trips(t, a, b, t2, back, good)
    ensures RoundTrip(press, t, a, b)
  {
  }

  // ----- the steps of the block style ----------------------------------------------------------------------

  lemma {:induction false} StopKinds(ranges: seq<Range>, inner: Str, s: nat, e: nat)
    ensures InnerStep(ranges, inner, s, e).Stop? ==> InnerStep(ranges, inner, s, e).status == Refused
  {
  }

  lemma {:induction false} TriesToComment(scan: Scanner, unclosed: Str -> int, t: Str, start: nat, end: nat, a: nat,
        b: nat, step: Step)
    requires start <= end <= |t| && StepFits(step, start, end) &&
      TakeStep(scan, unclosed, t, start, end, a, b, step).status == CommentedOut
    ensures step.status == CommentedOut
  {
  }

  lemma {:induction false} NeverStopsCommented(inside: Inside, ranges: seq<Range>, tagged: bool, onlyTags: bool,
        region: Str, start: nat)
    requires inside == InsideOf(ranges)
    ensures StepWith(inside, tagged, onlyTags, region, start).Stop? ==>
      StepWith(inside, tagged, onlyTags, region, start).status != CommentedOut
  {
    var first, last := RunEnd(region, 0, IsSpace), RunStart(region, |region|, IsSpace);
    if first < |region| {
      CoreBounds(region);
      StopKinds(ranges, region[first..last], start + first, start + last);
    }
  }

  /** The step that comments out, with where the text of its region starts and ends. */
  lemma {:induction false} FirstStep(scan: Scanner, t: Str, start: nat, end: nat, step: Step)
    returns (first: nat, last: nat)
    requires start <= end <= |t| && step == StepsOf(scan)(t, start, end) && step.status == CommentedOut
    ensures CanWrap(t[start..end], first, last)
    ensures step == Try(BlockComment(start + first, start + last), [], [Range(start + first, start + last + 9)],
      CommentedOut)
  {
    var region := t[start..end];
    var inside, tagged, onlyTags := InsideOf(scan(t)), HasTagLine(region), OnlyTagLines(region);
    NeverStopsCommented(inside, scan(t), tagged, onlyTags, region, start);
    first, last := CommentingStep(inside, tagged, onlyTags, scan(t), region, start, step);
  }

  lemma {:induction false} CoreIs(region: Str, first: nat, last: nat, core: Str)
    requires IsCore(region, first, last, core)
    ensures CoreText(region) == core
  {
  }

  lemma {:induction false} TakenBackIs(t2: Str, start: nat, end2: nat, first: nat, last: nat, region2: Str, text: Str,
        tagged: bool, marked: bool)
    requires start <= end2 <= |t2| && region2 == t2[start..end2] && IsCore(region2, first, last, text)
    requires tagged == HasTagLine(region2) && marked == HasMarker(text)
    ensures BlockTakenBack(t2, start, end2) == (!tagged && !marked)
  {
    CoreIs(region2, first, last, text);
  }

  lemma {:induction false} AnswersFrom(steps: Steps, t2: Str, start: nat, end2: nat, off: Step, stops: bool)
    requires BlockTakenBack(t2, start, end2) == !stops && StopsOr(stops, steps(t2, start, end2), off)
    ensures Answers(steps, t2, start, end2, off)
  {
  }

  /** The region of the first toggle, as it was written. */
  ghost predicate Wraps(w: Written, g: Wrap) {
    && w.start <= w.end2 <= |w.t2| && g.Valid() && g.written == w.t2[w.start..w.end2]
    && w.s == w.start + g.first && w.e2 == w.start + (g.last + 9)
  }

  /** What the step is on the text that the first step wrote. */
  lemma {:induction false} AnswersBack(scan: Scanner, steps: Steps, w: Written, g: Wrap, off: Step)
    requires Wraps(w, g) && steps == StepsOf(scan) && off == TakenOff(scan(w.t2), g.inner, w.s, w.e2)
    ensures Answers(steps, w.t2, w.start, w.end2, off)
  {
    var tagged, marked := HasTagLine(g.written), HasMarker(BlockText(g.inner));
    assert BlockTakenBack(w.t2, w.start, w.end2) == !(tagged || marked) by { WrittenTakenBack(w, g); }
    assert StopsOr(tagged || marked, steps(w.t2, w.start, w.end2), off) by {
      StepsBack(scan(w.t2), g, w.start, w.s, w.e2, tagged, marked, steps(w.t2, w.start, w.end2), off);
    }
    AnswersFrom(steps, w.t2, w.start, w.end2, off, tagged || marked);
  }

  lemma {:induction false} WrittenTakenBack(w: Written, g: Wrap)
    requires Wraps(w, g)
    ensures BlockTakenBack(w.t2, w.start, w.end2) == (!HasTagLine(g.written) && !HasMarker(BlockText(g.inner)))
  {
    var text := BlockText(g.inner);
    CoreWritten(g, text);
    TakenBackIs(w.t2, w.start, w.end2, g.first, g.last + 9, g.written, text, HasTagLine(g.written), HasMarker(text));
  }

  /** What the first step writes. */
  lemma {:induction false} FirstPart(t: Str, start: nat, end: nat, first: nat, last: nat, region: Str, inner: Str,
        step: Step)
    returns (w: Written)
    requires start <= end <= |t| && region == t[start..end] && first < last <= |region| && inner == region[first..last]
    requires step == Try(BlockComment(start + first, start + last), [], [Range(start + first, start + last + 9)],
      CommentedOut)
    ensures w.Valid() && w.t == t && w.start == start && w.end == end && w.s == start + first &&
      w.e2 == start + last + 9
    ensures w.inv == TakeOff(w.s, inner) && w.t2[start..w.end2] == region[..first] + (BlockText(inner) + region[last..])
    ensures step == Try(w.edits, [], w.Added(), CommentedOut)
  {
    w := WrittenBy(t, start, end, first, last, region, inner);
    StepWrites(step, w, start, first, last);
  }

  lemma {:induction false} StepWrites(step: Step, w: Written, start: nat, first: nat, last: nat)
    requires step == Try(BlockComment(start + first, start + last), [], [Range(start + first, start + last + 9)],
      CommentedOut)
    requires w.edits == BlockComment(start + first, start + last) && w.s == start + first && w.e2 == start + last + 9
    ensures step == Try(w.edits, [], w.Added(), CommentedOut)
  {
  }

  lemma {:induction false} StepTakes(w: Written, ranges2: seq<Range>, inner: Str, off: Step)
    requires w.inv == TakeOff(w.s, inner) && off == TakenOff(ranges2, inner, w.s, w.e2)
    ensures off == Try(w.inv, Exactly(ranges2, w.s, w.e2), [], Uncommented)
  {
  }

  /** The second toggle: its step on what the first one wrote. */
  lemma {:induction false} SecondPart(scan: Scanner, w: Written, g: Wrap) returns (off: Step)
    requires Wraps(w, g) && w.inv == TakeOff(w.s, g.inner)
    ensures off == Try(w.inv, Exactly(scan(w.t2), w.s, w.e2), [], Uncommented)
    ensures Answers(StepsOf(scan), w.t2, w.start, w.end2, off)
  {
    off := TakenOff(scan(w.t2), g.inner, w.s, w.e2);
    StepTakes(w, scan(w.t2), g.inner, off);
    AnswersBack(scan, StepsOf(scan), w, g, off);
  }

  /** The step of a toggle that answers "commented out". */
  lemma {:induction false} CommentedStep(scan: Scanner, unclosed: Str -> int, t: Str, a: nat, b: nat, start: nat,
        end: nat)
    requires a <= b <= |t| && ToggleBlockStyle(scan, unclosed, t, a, b).status == CommentedOut
    requires start == LineStart(t, a) && end == RegionEnd(t, a, b)
    ensures Fitting(StepsOf(scan)) && StyleWith(StepsOf(scan), scan, unclosed, t, a, b).status == CommentedOut
    ensures StepsOf(scan)(t, start, end).status == CommentedOut
  {
    StepsFit(scan);
    StyleIs(StepsOf(scan), scan, unclosed, t, a, b);
    TriesToComment(scan, unclosed, t, start, end, a, b, StepsOf(scan)(t, start, end));
  }

  /** The block style as a key press. */
  function PressOf(scan: Scanner, unclosed: Str -> int): KeyPress {
    (t: Str, a: int, b: int) => ToggleBlockStyle(scan, unclosed, t, a, b)
  }

  /** What is written by a toggle that comments out, and the step that takes it off. */
  lemma {:induction false} Prepared(scan: Scanner, t: Str, start: nat, end: nat, step: Step)
    returns (w: Written, off: Step)
    requires start <= end <= |t| && step == StepsOf(scan)(t, start, end) && step.status == CommentedOut
    ensures w.Valid() && w.t == t && w.start == start && w.end == end &&
      step == Try(w.edits, [], w.Added(), CommentedOut)
    ensures off == Try(w.inv, Exactly(scan(w.t2), w.s, w.e2), [], Uncommented) &&
      Answers(StepsOf(scan), w.t2, w.start, w.end2, off)
    ensures NoMarkers(w.t2, scan(w.t2)) && Range(w.s, w.e2) in scan(w.t2) ==>
      BlockTakenBack(w.t2, w.start, w.end2) == ComesOff(t[start..end]) &&
        !HasMarker(BlockText(CoreText(t[start..end])))
  {
    var first, last := FirstStep(scan, t, start, end, step);
    var region, inner := t[start..end], t[start..end][first..last];
    w := FirstPart(t, start, end, first, last, region, inner, step);
    var g := Wrap(region, first, last, inner, w.t2[start..w.end2]);
    off := SecondPart(scan, w, g);
    if NoMarkers(w.t2, scan(w.t2)) && Range(w.s, w.e2) in scan(w.t2) { ConditionCarried(w, g, scan(w.t2)); }
  }

  /** Whether the comment comes off can be told from the region before it was put on. */
  lemma {:induction false} ConditionCarried(w: Written, g: Wrap, ranges2: seq<Range>)
    requires Wraps(w, g) && NoMarkers(w.t2, ranges2) && Range(w.s, w.e2) in ranges2
    ensures BlockTakenBack(w.t2, w.start, w.end2) == ComesOff(g.region) && !HasMarker(BlockText(CoreText(g.region)))
  {
    assert CoreText(g.region) == g.inner;
    WrittenTakenBack(w, g);
    NoBlockMarker(w, g, ranges2);
    ComesOffIff(g.region, g.first, g.last, g.written);
  }

  /** The comment of a checked toggle is no marker: the scanner would not report it. */
  lemma {:induction false} NoBlockMarker(w: Written, g: Wrap, ranges2: seq<Range>)
    requires Wraps(w, g) && NoMarkers(w.t2, ranges2) && Range(w.s, w.e2) in ranges2
    ensures !HasMarker(BlockText(g.inner))
  {
    var x := BlockText(g.inner);
    if HasMarker(x) {
      OnlyOpeningMarks(g.inner);
      BlockPlaced(w, g, x);
      MarkerPlaced(w.t2, w.s, x);
      assert false;
    }
  }

  lemma {:induction false} BlockPlaced(w: Written, g: Wrap, x: Str)
    requires Wraps(w, g) && x == BlockText(g.inner)
    ensures w.s + |x| <= |w.t2| && w.t2[w.s..w.s + |x|] == x
  {
    MiddlePart(g.region[..g.first], x, g.region[g.last..]);
    SliceOfSlice(w.t2, w.start, w.end2, g.first, g.first + |x|);
  }

  lemma {:induction false} StyleBounds(steps: Steps, scan: Scanner, unclosed: Str -> int, t: Str, a: nat, b: nat,
        r: Toggle)
    requires Fitting(steps) && a <= b <= |t| && r == StyleWith(steps, scan, unclosed, t, a, b)
    ensures r.start == LineStart(t, a) && r.end == RegionEnd(t, a, b)
  {
    StyleIs(steps, scan, unclosed, t, a, b);
  }

  /** The check of the first press passed, so the scanner reports the comment that was written. */
  lemma {:induction false} ReportedBack(steps: Steps, scan: Scanner, unclosed: Str -> int, w: Written, a: nat, b: nat)
    requires CommentScanner(scan) && Fitting(steps) && w.Valid() && a <= b <= |w.t| && w.start == LineStart(w.t, a)
    requires w.end == RegionEnd(w.t, a, b) && steps(w.t, w.start, w.end) == Try(w.edits, [], w.Added(), CommentedOut)
    requires StyleWith(steps, scan, unclosed, w.t, a, b).status == CommentedOut
    ensures Range(w.s, w.e2) in scan(w.t2) && NoMarkers(w.t2, scan(w.t2))
  {
    assert Comments(w.t2, scan(w.t2));
    FirstPress(steps, scan, unclosed, w, a, b);
    var kept := Kept(scan(w.t), [], w.edits);
    SortKeeps(kept + w.Added());
    SameMembers(scan(w.t2), kept, w.Added());
  }

  /** A text whose comment would be one of md-memo's own markers is never commented out. */
  lemma {:induction false} NoMarkerWrapped(scan: Scanner, unclosed: Str -> int, t: Str, a: nat, b: nat)
    requires CommentScanner(scan) && a <= b <= |t| && ToggleBlockStyle(scan, unclosed, t, a, b).status == CommentedOut
    ensures !HasMarker(BlockText(CoreText(t[LineStart(t, a)..RegionEnd(t, a, b)])))
  {
    var start, end := LineStart(t, a), RegionEnd(t, a, b);
    CommentedStep(scan, unclosed, t, a, b, start, end);
    var w, off := Prepared(scan, t, start, end, StepsOf(scan)(t, start, end));
    ReportedBack(StepsOf(scan), scan, unclosed, w, a, b);
  }

  lemma {:induction false} BothPresses(scan: Scanner, unclosed: Str -> int, t: Str, a: nat, b: nat)
    returns (r: Toggle, t2: Str, back: Toggle, good: bool)
    requires CommentScanner(scan) && a <= b <= |t| && ToggleBlockStyle(scan, unclosed, t, a, b).status == CommentedOut
    ensures r == ToggleBlockStyle(scan, unclosed, t, a, b) && NoteAfter(t, r) == t2 &&
      back == ToggleBlockStyle(scan, unclosed, t2, r.selStart, r.selEnd)
    ensures good == ComesOff(t[r.start..r.end]) && Trips(t, a, b, t2, back, good)
  {
    var start, end := LineStart(t, a), RegionEnd(t, a, b);
    CommentedStep(scan, unclosed, t, a, b, start, end);
    var w, off := Prepared(scan, t, start, end, StepsOf(scan)(t, start, end));
    good, t2 := BlockTakenBack(w.t2, w.start, w.end2), w.t2;
    assert good == ComesOff(t[start..end]) by { ReportedBack(StepsOf(scan), scan, unclosed, w, a, b); }
    r, back := Presses(StepsOf(scan), scan, unclosed, w, a, b, off, good);
    assert r.start == start && r.end == end by { StyleBounds(StepsOf(scan), scan, unclosed, t, a, b, r); }
  }

  /**
    Toggling twice, block style: the second key press, with the selection the first one left, gives back the text
    and the selection, exactly when the line the comment ends on will not read as a tag line; otherwise it changes
    nothing. (It is no marker, see `NoMarkerWrapped`.) Its structural check passes because the first one did.
   */
  lemma {:induction false} BlockRoundTrip(scan: Scanner, unclosed: Str -> int, t: Str, a: nat, b: nat)
    requires CommentScanner(scan) && a <= b <= |t| && ToggleBlockStyle(scan, unclosed, t, a, b).status == CommentedOut
    ensures Bounded(PressOf(scan, unclosed)) && RoundTrip(PressOf(scan, unclosed), t, a, b)
  {
    var r, t2, back, good := BothPresses(scan, unclosed, t, a, b);
    RoundTripIs(PressOf(scan, unclosed), t, a, b, r, t2, back, good);
  }
}
