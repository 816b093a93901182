/** The block style of Ctrl+/: one comment around all the lines of the selection, or that comment taken off. */
module CommentBlock {
  import opened Text
  import opened Markers
  import opened EditCalculus
  import opened LineCalculus
  import opened CommentToggle

  predicate HasTagLine(region: Str) {
    exists i :: 0 <= i < |SplitLines(region)| && IsTagLine(SplitLines(region)[i])
  }

  /** Every line that is not blank is a tag line. */
  predicate OnlyTagLines(region: Str) {
    forall i :: 0 <= i < |SplitLines(region)| ==> AllSpace(SplitLines(region)[i]) || IsTagLine(SplitLines(region)[i])
  }

  /** A "-->" between the "<!--" at the front and the one at the end. */
  predicate ArrowInside(inner: Str) {
    exists k :: 2 <= k < |inner| - 3 && ArrowAt(inner, k)
  }

  /** Exactly one comment, and no marker. */
  predicate IsWholeComment(inner: Str) {
    |inner| >= 7 && OpensAt(inner, 0) && ArrowAt(inner, |inner| - 3) && !HasMarker(inner) && !ArrowInside(inner)
  }

  /** What goes with the "<!--": the rest of its line when that is blank, or one blank. */
  function InnerFrom(inner: Str): (from: nat)
    requires |inner| >= 7
    ensures 4 <= from <= |inner|
  {
    var nl := NextBreak(inner, 4);
    if nl < |inner| && (forall k :: 4 <= k < nl ==> TabSpaceOrReturn(inner[k])) then nl + 1
    else if TabOrSpace(inner[4]) then 5
    else 4
  }

  /** What goes with the "-->": its line when nothing is before it there, or one blank. */
  function InnerTo(inner: Str, from: nat): (to: nat)
    requires |inner| >= 7 && from <= |inner|
    ensures to <= |inner| && from <= to
  {
    var end := |inner| - 3;
    var ls := LineStart(inner, end);
    var to :=
      if 0 < ls && from <= ls && (forall k :: ls <= k < end ==> TabOrSpace(inner[k])) then
        if ls >= 2 && inner[ls - 2] == CR then ls - 2 else ls - 1
      else if TabOrSpace(inner[end - 1]) then end - 1
      else end;
    if to < from then from else to
  }

  predicate Touches(ranges: seq<Range>, s: int, e: int) {
    exists i :: 0 <= i < |ranges| && ranges[i].start < e && ranges[i].end > s
  }

  function Exactly(ranges: seq<Range>, s: int, e: int): (r: seq<Range>)
    ensures forall x :: x in r <==> x in ranges && x == Range(s, e)
  {
    if ranges == [] then []
    else (if ranges[0].start == s && ranges[0].end == e then [ranges[0]] else []) + Exactly(ranges[1..], s, e)
  }

  function BlockUncomment(inner: Str, s: nat): seq<Edit>
    requires |inner| >= 7
  {
    var from := InnerFrom(inner);
    var to := InnerTo(inner, from);
    [Edit(s, from, [], EditKind.Open), Edit(s + to, |inner| - to, [], EditKind.Close)]
  }

  function BlockComment(s: nat, e: nat): seq<Edit> {
    [Edit(s, 0, OPEN, EditKind.Open), Edit(e, 0, CLOSE, EditKind.Close)]
  }

  lemma {:induction false} BlockOrdered(inner: Str, start: nat, s: nat, e: nat, end: nat)
    requires start <= s <= e <= end && |inner| == e - s
    ensures Ordered(BlockComment(s, e), start, end)
    ensures |inner| >= 7 ==> Ordered(BlockUncomment(inner, s), start, end)
  {
  }

  /** The end of an edit that is tried: kept when the comments come out as they should. */
  function Tried(scan: Scanner, unclosed: Str -> int, t: Str, start: nat, end: nat, a: nat, b: nat,
                 edits: seq<Edit>, removed: seq<Range>, added: seq<Range>, status: Status): Toggle
    requires start <= end <= |t| && Ordered(edits, start, end)
  {
    if !SameStructure(scan, Edited(t, start, end, edits), scan(t), removed, added, edits) then
      RefuseUnsafe(unclosed, t, start, end, a, b)
    else
      var sel := MapSelection(a, b, edits);
      Toggle(start, end, Apply(t, start, end, edits), sel.0, sel.1, status, NoReason, [])
  }

  /** What is done: nothing, or edits that take a comment off or put one on. */
  datatype Step = Stop(status: Status, why: Reason) | Try(edits: seq<Edit>, removed: seq<Range>, added: seq<Range>,
        status: Status)

  function InnerStep(ranges: seq<Range>, inner: Str, s: nat, e: nat): Step {
    if IsWholeComment(inner) then Try(BlockUncomment(inner, s), Exactly(ranges, s, e), [], Uncommented)
    else if HasMarker(inner) then Stop(Refused, HasMarkers)
    else if HasArrow(inner) then Stop(Refused, Terminator)
    else if Touches(ranges, s, e) then Stop(Refused, Overlap)
    else Try(BlockComment(s, e), [], [Range(s, s + |OPEN| + |inner| + |CLOSE|)], CommentedOut)
  }

  /** What is done with a text that stands at [s, e). */
  type Inside = (Str, nat, nat) -> Step

  function InsideOf(ranges: seq<Range>): Inside {
    (inner: Str, s: nat, e: nat) => InnerStep(ranges, inner, s, e)
  }

  /** Blank regions and tag lines stay; else it is about the text without the white space around it. */
  function StepWith(inside: Inside, tagged: bool, onlyTags: bool, region: Str, start: nat): Step {
    var first, last := RunEnd(region, 0, IsSpace), RunStart(region, |region|, IsSpace);
    if first == |region| then Stop(Nothing, NoReason)
    else if tagged then Stop(if onlyTags then Nothing else Refused, Tags)
    else
      CoreBounds(region);
      inside(region[first..last], start + first, start + last)
  }

  function RegionStep(ranges: seq<Range>, region: Str, start: nat): Step {
    StepWith(InsideOf(ranges), HasTagLine(region), OnlyTagLines(region), region, start)
  }

  ghost predicate StepFits(step: Step, start: nat, end: nat)
    requires start <= end
  {
    step.Try? ==> Ordered(step.edits, start, end)
  }

  lemma {:induction false} InnerStepFits(ranges: seq<Range>, inner: Str, start: nat, s: nat, e: nat, end: nat)
    requires start <= s <= e <= end && |inner| == e - s
    ensures StepFits(InnerStep(ranges, inner, s, e), start, end)
  {
    BlockOrdered(inner, start, s, e, end);
  }

  ghost predicate IsCore(region: Str, first: nat, last: nat, core: Str) {
    first < last <= |region| && first == RunEnd(region, 0, IsSpace) && last == RunStart(region, |region|, IsSpace) &&
      region[first..last] == core
  }

  lemma {:induction false} StepOfCore(inside: Inside, tagged: bool, onlyTags: bool, region: Str, start: nat,
        first: nat, last: nat, core: Str, step: Step)
    requires IsCore(region, first, last, core) && step == StepWith(inside, tagged, onlyTags, region, start)
    ensures if tagged then step.Stop? else step == inside(core, start + first, start + last)
  {
  }

  lemma {:induction false} StepWithFits(inside: Inside, tagged: bool, onlyTags: bool, region: Str, start: nat)
    requires forall inner, s, e :: start <= s <= e <= start + |region| && |inner| == e - s ==>
      StepFits(inside(inner, s, e), start, start + |region|)
    ensures StepFits(StepWith(inside, tagged, onlyTags, region, start), start, start + |region|)
  {
    var first, last := RunEnd(region, 0, IsSpace), RunStart(region, |region|, IsSpace);
    if first < |region| {
      CoreBounds(region);
      StepOfCore(inside, tagged, onlyTags, region, start, first, last, region[first..last],
        StepWith(inside, tagged, onlyTags, region, start));
    }
  }

  lemma {:induction false} RegionStepFits(ranges: seq<Range>, region: Str, start: nat)
    ensures StepFits(RegionStep(ranges, region, start), start, start + |region|)
  {
    var inside, end := InsideOf(ranges), start + |region|;
    forall inner, s, e | start <= s <= e <= end && |inner| == e - s ensures StepFits(inside(inner, s, e), start, end) {
      InnerStepFits(ranges, inner, start, s, e, end);
    }
    StepWithFits(inside, HasTagLine(region), OnlyTagLines(region), region, start);
  }

  function TakeStep(scan: Scanner, unclosed: Str -> int, t: Str, start: nat, end: nat, a: nat, b: nat,
        step: Step): Toggle
    requires start <= end <= |t| && StepFits(step, start, end)
  {
    match step
    case Stop(status, why) => Unchanged(t, start, end, a, b, status, why, [])
    case Try(edits, removed, added, status) => Tried(scan, unclosed, t, start, end, a, b, edits, removed, added, status)
  }

  /** The step for the region [start, end) of a text. */
  type Steps = (Str, nat, nat) -> Step

  function StepsOf(scan: Scanner): Steps {
    (t: Str, start: nat, end: nat) => if start <= end <= |t| then RegionStep(scan(t), t[start..end], start)
      else Stop(Nothing, NoReason)
  }

  ghost predicate Fitting(steps: Steps) {
    forall t: Str, start: nat, end: nat :: start <= end <= |t| ==> StepFits(steps(t, start, end), start, end)
  }

  lemma {:induction false} StepsFit(scan: Scanner)
    ensures Fitting(StepsOf(scan))
  {
    forall t: Str, start: nat, end: nat | start <= end <= |t|
      ensures StepFits(StepsOf(scan)(t, start, end), start, end)
    {
      RegionStepFits(scan(t), t[start..end], start);
    }
  }

  function ToggleWith(steps: Steps, scan: Scanner, unclosed: Str -> int, t: Str, start: nat, end: nat, a: nat,
        b: nat): Toggle
    requires Fitting(steps) && start <= end <= |t|
  {
    TakeStep(scan, unclosed, t, start, end, a, b, steps(t, start, end))
  }

  /** One comment around the lines. */
  function BlockToggle(scan: Scanner, unclosed: Str -> int, t: Str, start: nat, end: nat, a: nat, b: nat): Toggle
    requires start <= end <= |t|
  {
    StepsFit(scan);
    ToggleWith(StepsOf(scan), scan, unclosed, t, start, end, a, b)
  }

  lemma {:induction false} CoreBounds(region: Str)
    requires RunEnd(region, 0, IsSpace) < |region|
    ensures RunEnd(region, 0, IsSpace) < RunStart(region, |region|, IsSpace)
  {
    var first := RunEnd(region, 0, IsSpace);
    assert !IsSpace(region[first]);
  }

  function StyleWith(steps: Steps, scan: Scanner, unclosed: Str -> int, t: Str, selStart: int, selEnd: int): (r: Toggle)
    requires Fitting(steps)
    ensures r.start <= r.end <= |t|
  {
    var x, y := Clamp(selStart, |t|), Clamp(selEnd, |t|);
    var a, b := if y < x then y else x, if y < x then x else y;
    ToggleWith(steps, scan, unclosed, t, LineStart(t, a), RegionEnd(t, a, b), a, b)
  }

  /** The block style for a selection given by any two numbers. */
  function ToggleBlockStyle(scan: Scanner, unclosed: Str -> int, t: Str, selStart: int, selEnd: int): (r: Toggle)
    ensures r.start <= r.end <= |t|
  {
    StepsFit(scan);
    StyleWith(StepsOf(scan), scan, unclosed, t, selStart, selEnd)
  }

  // ----- step by step --------------------------------------------------------------------------------------

  method TryEdits(scan: Scanner, unclosed: Str -> int, t: Str, start: nat, end: nat, a: nat, b: nat,
                  edits: seq<Edit>, removed: seq<Range>, added: seq<Range>, status: Status) returns (r: Toggle)
    requires CommentScanner(scan) && start <= end <= |t| && Ordered(edits, start, end)
    ensures r == Tried(scan, unclosed, t, start, end, a, b, edits, removed, added, status)
  {
    var replacement := ApplyEdits(t, start, end, edits);
    assert Comments(t, scan(t));
    var ok := CheckStructure(scan, t[..start] + replacement + t[end..], scan(t), removed, added, edits);
    if !ok { return RefuseUnsafe(unclosed, t, start, end, a, b); }
    var sel := MapSelection(a, b, edits);
    r := Toggle(start, end, replacement, sel.0, sel.1, status, NoReason, []);
  }

  method ReadStep(inside: Inside, tagged: bool, onlyTags: bool, region: Str, start: nat) returns (step: Step)
    ensures step == StepWith(inside, tagged, onlyTags, region, start)
  {
    var first := RunEnd(region, 0, IsSpace);
    if first == |region| { return Stop(Nothing, NoReason); }
    if tagged { return Stop(if onlyTags then Nothing else Refused, Tags); }
    CoreBounds(region);
    var last := RunStart(region, |region|, IsSpace);
    step := inside(region[first..last], start + first, start + last);
  }

  method ToggleBlock(scan: Scanner, unclosed: Str -> int, t: Str, start: nat, end: nat, a: nat, b: nat)
    returns (r: Toggle)
    requires CommentScanner(scan) && start <= end <= |t|
    ensures r == BlockToggle(scan, unclosed, t, start, end, a, b)
  {
    var region := t[start..end];
    var step := ReadStep(InsideOf(scan(t)), HasTagLine(region), OnlyTagLines(region), region, start);
    RegionStepFits(scan(t), t[start..end], start);
    match step
    case Stop(status, why) => r := Unchanged(t, start, end, a, b, status, why, []);
    case Try(edits, removed, added, status) => r := TryEdits(scan, unclosed, t, start, end, a, b, edits, removed,
      added, status);
  }
}
