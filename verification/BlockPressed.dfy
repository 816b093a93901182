/**
  What one press of Ctrl+/ in the block style makes of the lines: the text between the ends of the one comment stays,
  and with each end goes its own line when nothing else is on it, or one blank.
 */
module BlockPressed {
  import opened Text
  import opened Markers
  import opened EditCalculus
  import opened CommentToggle
  import opened CommentBlock
  import opened BlockTheorem
  import opened LineForms
  import opened PressedText

  ghost predicate AllBlanks(s: Str) {
    forall k :: 0 <= k < |s| ==> s[k] == 0x09 || s[k] == 0x20
  }

  /** Tabs, spaces and carriage returns, and then a line feed. */
  ghost predicate StartsBlankLine(s: Str) {
    exists n :: 0 <= n < |s| && s[n] == LF && BlankTo(s, n)
  }

  ghost predicate BlankTo(s: Str, n: nat)
    requires n <= |s|
  {
    forall k :: 0 <= k < n ==> s[k] == 0x09 || s[k] == 0x20 || s[k] == 0x0D
  }

  /** A line feed, and then tabs and spaces to the end. */
  ghost predicate EndsBlankLine(s: Str) {
    exists n :: 0 <= n < |s| && s[n] == LF && AllBlanks(s[n + 1..])
  }

  /** What goes with the "<!--", when `x` follows: the rest of its line when that is blank, else one blank. */
  ghost predicate Front(f: Str, x: Str) {
    || (f != [] && f[|f| - 1] == LF && BlankTo(f, |f| - 1))
    || (!StartsBlankLine(f + x) && AllBlanks(f) &&
        (|f| == 1 || (f == [] && (x == [] || (x[0] != 0x09 && x[0] != 0x20)))))
  }

  predicate EndsLf(f: Str) { f != [] && f[|f| - 1] == LF }

  /** A break, with the carriage return before it, and blanks. */
  ghost predicate BreakAndBlanks(mid: Str, g: Str, blanks: Str) {
    AllBlanks(blanks) && (g == [CR, LF] + blanks || (g == [LF] + blanks && (mid == [] || mid[|mid| - 1] != CR)))
  }

  /** What goes with the "-->", when `mid` is before it: the break and the blanks before it, else one blank. */
  ghost predicate Back(f: Str, mid: Str, g: Str) {
    || (exists blanks :: BreakAndBlanks(mid, g, blanks))
    || (EndsLf(f) && mid == [] && AllBlanks(g))
    || (!EndsBlankLine(mid + g) && !(EndsLf(f) && AllBlanks(mid + g)) && AllBlanks(g) &&
        (|g| == 1 || (g == [] && (mid == [] || (mid[|mid| - 1] != 0x09 && mid[|mid| - 1] != 0x20)))))
  }

  // ----- what goes with the opening ------------------------------------------------------------------------

  lemma {:induction false} FrontIs(inner: Str, f: Str, x: Str)
    requires |inner| >= 7 && inner == OPENING + (f + (x + ARROW)) && Front(f, x)
    ensures InnerFrom(inner) == 4 + |f|
  {
    var b := f + x;
    InnerUnits(inner, f, x, b);
    if EndsLf(f) {
      assert b[..|f|] == f;
      LineFront(inner, f, b);
    } else {
      NoBlankLine(inner, b);
      assert b != [] ==> inner[4] == b[0];
      assert f != [] ==> b[0] == f[0];
      assert f == [] ==> b == x;
    }
  }

  lemma {:induction false} InnerUnits(inner: Str, f: Str, x: Str, b: Str)
    requires inner == OPENING + (f + (x + ARROW)) && b == f + x
    ensures |inner| == |b| + 7 && forall k :: 0 <= k < |b| ==> inner[4 + k] == b[k]
    ensures inner[4 + |b|] == DASH && inner[5 + |b|] == DASH && inner[6 + |b|] == GREATER
    ensures OpensAt(inner, 0) && ArrowAt(inner, |inner| - 3)
  {
    Associate(f, x, ARROW);
    forall k | 0 <= k < |b| ensures inner[4 + k] == b[k] { ThreeParts(OPENING, b, ARROW, k); }
    ThreeParts(OPENING, b, ARROW, 0);
    ThreeParts(OPENING, b, ARROW, 1);
    ThreeParts(OPENING, b, ARROW, 2);
    ThreeParts(OPENING, b, ARROW, 3);
  }

  lemma {:induction false} LineFront(inner: Str, f: Str, b: Str)
    requires |inner| == |b| + 7 && (forall k :: 0 <= k < |b| ==> inner[4 + k] == b[k])
    requires EndsLf(f) && BlankTo(f, |f| - 1) && |f| <= |b| && b[..|f|] == f
    ensures InnerFrom(inner) == 4 + |f|
  {
    forall k | 4 <= k < 3 + |f| ensures TabSpaceOrReturn(inner[k]) {
      assert inner[4 + (k - 4)] == b[k - 4] == b[..|f|][k - 4];
    }
    assert inner[4 + (|f| - 1)] == b[|f| - 1] == b[..|f|][|f| - 1];
    BreakIs(inner, 4, 3 + |f|);
  }

  lemma {:induction false} NoBlankLine(inner: Str, b: Str)
    requires |inner| == |b| + 7 && (forall k :: 0 <= k < |b| ==> inner[4 + k] == b[k]) && !StartsBlankLine(b)
    requires inner[4 + |b|] == DASH && inner[5 + |b|] == DASH && inner[6 + |b|] == GREATER
    ensures var nl := NextBreak(inner, 4); nl < |inner| ==> exists k :: 4 <= k < nl && !TabSpaceOrReturn(inner[k])
  {
    var nl := NextBreak(inner, 4);
    if nl < |inner| {
      var n: nat := nl - 4;
      assert n < |b| && inner[4 + n] == b[n];
      assert !BlankTo(b, n);
      var k :| 0 <= k < n && b[k] != 0x09 && b[k] != 0x20 && b[k] != 0x0D;
      assert !TabSpaceOrReturn(inner[4 + k]);
    }
  }

  // ----- what goes with the end ----------------------------------------------------------------------------

  /** The comment with what is between its ends, from index `from` on. */
  ghost predicate Holds(inner: Str, from: nat, f: Str, b: Str) {
    && 4 <= from && |inner| == from + |b| + 3 && (forall k :: 0 <= k < |b| ==> inner[from + k] == b[k])
    && (if EndsLf(f) then inner[from - 1] == LF else forall k :: 0 <= k < from ==> inner[k] != LF)
    && inner[from - 1] != CR && |inner| >= 7
  }

  lemma {:induction false} BackIs(inner: Str, from: nat, f: Str, mid: Str, g: Str)
    requires Holds(inner, from, f, mid + g) && Back(f, mid, g)
    ensures InnerTo(inner, from) == from + |mid|
  {
    var b, end := mid + g, |inner| - 3;
    if EndsBlankLine(b) {
      BlankLineEnds(inner, from, f, mid, g);
    } else if EndsLf(f) && AllBlanks(b) {
      AllBlankEnds(inner, from, f, mid, g);
    } else {
      OtherEnds(inner, from, f, mid, g);
    }
  }

  lemma {:induction false} LastLf(b: Str) returns (n: nat)
    requires EndsBlankLine(b)
    ensures n < |b| && b[n] == LF && forall k :: n < k < |b| ==> b[k] == 0x09 || b[k] == 0x20
  {
    n :| n < |b| && b[n] == LF && AllBlanks(b[n + 1..]);
    forall k | n < k < |b| ensures b[k] == 0x09 || b[k] == 0x20 { assert b[n + 1..][k - n - 1] == b[k]; }
  }

  lemma {:induction false} BlankLineEnds(inner: Str, from: nat, f: Str, mid: Str, g: Str)
    requires Holds(inner, from, f, mid + g) && Back(f, mid, g) && EndsBlankLine(mid + g)
    ensures InnerTo(inner, from) == from + |mid|
  {
    var b, end := mid + g, |inner| - 3;
    var n := LastLf(b);
    var ls := from + n + 1;
    forall k | ls <= k < end ensures TabOrSpace(inner[k]) { assert inner[from + (k - from)] == b[k - from]; }
    assert inner[ls - 1] == b[n];
    LineStartIs(inner, end, ls);
    BreakInBack(f, mid, g, b, n);
    assert n > 0 ==> inner[from + (n - 1)] == b[n - 1];
  }

  /** The last break goes with the end, and a carriage return before it. */
  lemma {:induction false} BreakInBack(f: Str, mid: Str, g: Str, b: Str, n: nat)
    requires Back(f, mid, g) && b == mid + g && EndsBlankLine(b) && n < |b| && b[n] == LF
    requires forall k :: n < k < |b| ==> b[k] == 0x09 || b[k] == 0x20
    ensures if n > 0 && b[n - 1] == CR then |mid| == n - 1 else |mid| == n
  {
    assert mid == [] ==> b == g && !AllBlanks(g);
    var blanks :| BreakAndBlanks(mid, g, blanks);
    BreakPlace(mid, g, blanks, b, n);
  }

  lemma {:induction false} BreakPlace(mid: Str, g: Str, blanks: Str, b: Str, n: nat)
    requires BreakAndBlanks(mid, g, blanks) && b == mid + g && n < |b| && b[n] == LF
    requires forall k :: n < k < |b| ==> b[k] == 0x09 || b[k] == 0x20
    ensures if n > 0 && b[n - 1] == CR then |mid| == n - 1 else |mid| == n
  {
    var m := |mid| + |g| - |blanks| - 1;
    assert b[m] == LF;
    assert forall k :: m < k < |b| ==> b[k] == blanks[k - m - 1];
    assert m == n;
    if |g| == |blanks| + 2 { assert b[n - 1] == g[0] == CR; }
    if |g| == |blanks| + 1 && n > 0 { assert b[n - 1] == mid[|mid| - 1]; }
  }

  lemma {:induction false} AllBlankEnds(inner: Str, from: nat, f: Str, mid: Str, g: Str)
    requires Holds(inner, from, f, mid + g) && Back(f, mid, g) && !EndsBlankLine(mid + g)
    requires EndsLf(f) && AllBlanks(mid + g)
    ensures InnerTo(inner, from) == from + |mid|
  {
    var b, end := mid + g, |inner| - 3;
    forall k | from <= k < end ensures TabOrSpace(inner[k]) { assert inner[from + (k - from)] == b[k - from]; }
    LineStartIs(inner, end, from);
    if exists blanks :: BreakAndBlanks(mid, g, blanks) {
      GoesLine(mid, g, b);
      assert false;
    }
    assert mid == [];
  }

  lemma {:induction false} GoesLine(mid: Str, g: Str, b: Str)
    requires b == mid + g && exists blanks :: BreakAndBlanks(mid, g, blanks)
    ensures EndsBlankLine(b)
  {
    var blanks :| BreakAndBlanks(mid, g, blanks);
    var m := |b| - |blanks| - 1;
    assert b[m] == LF && b[m + 1..] == blanks;
  }

  lemma {:induction false} OtherEnds(inner: Str, from: nat, f: Str, mid: Str, g: Str)
    requires Holds(inner, from, f, mid + g) && Back(f, mid, g) && !EndsBlankLine(mid + g)
    requires !(EndsLf(f) && AllBlanks(mid + g))
    ensures InnerTo(inner, from) == from + |mid|
  {
    var b, end := mid + g, |inner| - 3;
    if exists blanks :: BreakAndBlanks(mid, g, blanks) {
      GoesLine(mid, g, b);
      assert false;
    }
    assert mid == [] ==> b == g;
    NoBlankLast(inner, from, f, b);
    assert b != [] ==> inner[end - 1] == b[|b| - 1] by { assert b != [] ==> inner[from + (|b| - 1)] == b[|b| - 1]; }
    assert g != [] ==> b[|b| - 1] == g[|g| - 1];
    assert g == [] && mid != [] ==> b[|b| - 1] == mid[|mid| - 1];
  }

  /** The line of the end is not blank before it, or it is the line the comment starts on. */
  lemma {:induction false} NoBlankLast(inner: Str, from: nat, f: Str, b: Str)
    requires Holds(inner, from, f, b) && !EndsBlankLine(b) && !(EndsLf(f) && AllBlanks(b))
    ensures var end := |inner| - 3;
      var ls := LineStart(inner, end);
      0 < ls && from <= ls ==> exists k :: ls <= k < end && !TabOrSpace(inner[k])
  {
    var end := |inner| - 3;
    var ls := LineStart(inner, end);
    if 0 < ls && from <= ls {
      var n: nat := ls - from;
      var k := NotBlankFrom(inner, from, f, b, n);
      assert inner[from + k] == b[k];
    }
  }

  /** From unit n on, behind a break, something is no blank. */
  lemma {:induction false} NotBlankFrom(inner: Str, from: nat, f: Str, b: Str, n: nat) returns (k: nat)
    requires Holds(inner, from, f, b) && !EndsBlankLine(b) && !(EndsLf(f) && AllBlanks(b))
    requires n <= |b| && inner[from + n - 1] == LF
    ensures n <= k < |b| && b[k] != 0x09 && b[k] != 0x20
  {
    if n > 0 {
      assert inner[from + (n - 1)] == b[n - 1];
      var i :| 0 <= i < |b[n..]| && b[n..][i] != 0x09 && b[n..][i] != 0x20;
      k := n + i;
    } else {
      k :| k < |b| && b[k] != 0x09 && b[k] != 0x20;
    }
  }

  // ----- the comment of a region ---------------------------------------------------------------------------

  /** White space, one comment, white space; what goes with the ends of the comment, and what is between them. */
  datatype BlockShape = BlockShape(left: Str, comment: Str, f: Str, mid: Str, g: Str, right: Str) {
    ghost predicate Valid() {
      && AllSpace(left) && AllSpace(right) && Front(f, mid + g) && Back(f, mid, g)
      && comment == OPENING + (f + ((mid + g) + ARROW))
    }

    ghost predicate Of(region: Str) {
      Valid() && region == left + (comment + right)
    }

    /** The lines without the comment. */
    function Kept(): Str { left + (mid + right) }
  }

  lemma {:induction false} CommentHolds(bs: BlockShape, inner: Str)
    requires bs.Valid() && inner == bs.comment
    ensures Holds(inner, 4 + |bs.f|, bs.f, bs.mid + bs.g)
    ensures OpensAt(inner, 0) && ArrowAt(inner, |inner| - 3)
  {
    InnerUnits(inner, bs.f, bs.mid + bs.g, bs.f + (bs.mid + bs.g));
    HoldsFrom(inner, bs.f, bs.mid + bs.g, bs.f + (bs.mid + bs.g));
  }

  lemma {:induction false} HoldsFrom(inner: Str, f: Str, x: Str, b: Str)
    requires |inner| == |b| + 7 && b == f + x && (forall k :: 0 <= k < |b| ==> inner[4 + k] == b[k])
    requires OpensAt(inner, 0) && (EndsLf(f) || AllBlanks(f))
    ensures Holds(inner, 4 + |f|, f, x)
  {
    var from := 4 + |f|;
    forall k | 0 <= k < |x| ensures inner[from + k] == x[k] { assert inner[4 + (|f| + k)] == b[|f| + k]; }
    forall k | 0 <= k < |f| ensures inner[4 + k] == f[k] { assert inner[4 + k] == b[k]; }
    if !EndsLf(f) {
      forall k | 0 <= k < from ensures inner[k] != LF { assert k >= 4 ==> inner[4 + (k - 4)] == f[k - 4]; }
    }
    assert f != [] ==> inner[4 + (|f| - 1)] == f[|f| - 1];
  }

  /** The bounds of what stays. */
  lemma {:induction false} CommentBounds(bs: BlockShape, inner: Str, from: nat, to: nat)
    requires bs.Valid() && inner == bs.comment && from == 4 + |bs.f| && to == from + |bs.mid|
    ensures |inner| >= 7 && InnerFrom(inner) == from && InnerTo(inner, from) == to
    ensures to <= |inner| && inner[from..to] == bs.mid
  {
    var x := bs.mid + bs.g;
    assert Holds(inner, from, bs.f, x) by { CommentHolds(bs, inner); }
    assert InnerFrom(inner) == from by { FrontIs(inner, bs.f, x); }
    assert InnerTo(inner, from) == to by { BackIs(inner, from, bs.f, bs.mid, bs.g); }
    MidSlice(inner, from, bs.f, bs.mid, bs.g, to);
  }

  lemma {:induction false} MidSlice(inner: Str, from: nat, f: Str, mid: Str, g: Str, to: nat)
    requires Holds(inner, from, f, mid + g) && to == from + |mid|
    ensures to <= |inner| && inner[from..to] == mid
  {
    var x := mid + g;
    forall k | 0 <= k < |mid| ensures inner[from + k] == mid[k] { assert inner[from + k] == x[k]; }
  }

  lemma {:induction false} RegionIsComment(bs: BlockShape, region: Str, inner: Str)
    requires bs.Of(region) && inner == bs.comment
    ensures IsCore(region, |bs.left|, |bs.left| + |inner|, inner)
    ensures region[..|bs.left|] == bs.left && region[|bs.left| + |inner|..] == bs.right
  {
    assert |inner| >= 7 && OpensAt(inner, 0) && ArrowAt(inner, |inner| - 3) by { CommentHolds(bs, inner); }
    CoreOf(bs.left, inner, bs.right, region);
  }

  /** The two deletions. */
  function CutEdits(s: nat, from: nat, to: nat, n: nat): seq<Edit>
    requires to <= n
  {
    [Edit(s, from, [], EditKind.Open), Edit(s + to, n - to, [], EditKind.Close)]
  }

  /** They leave what is between them. */
  lemma {:induction false} RegionCut(t: Str, start: nat, end: nat, first: nat, last: nat, region: Str, from: nat,
        to: nat)
    requires start <= end <= |t| && region == t[start..end] && from <= to && first + to <= last <= |region|
    ensures var edits := CutEdits(start + first, from, to, last - first);
      && Ordered(edits, start, end)
      && Apply(t, start, end, edits) == region[..first] + (region[first + from..first + to] + region[last..])
  {
    var s := start + first;
    CutApply(t, start, end, s, from, to, last - first);
    SliceOfSlice(t, start, end, 0, first);
    SliceOfSlice(t, start, end, first + from, first + to);
    SliceOfSlice(t, start, end, last, |region|);
    assert region[last..] == region[last..|region|] && region[..first] == region[0..first];
  }

  lemma {:induction false} CutApply(t: Str, start: nat, end: nat, s: nat, from: nat, to: nat, n: nat)
    requires start <= s && from <= to <= n && s + n <= end <= |t|
    ensures Ordered(CutEdits(s, from, to, n), start, end)
    ensures Apply(t, start, end, CutEdits(s, from, to, n)) == t[start..s] + (t[s + from..s + to] + t[s + n..end])
  {
    var c := Edit(s + to, n - to, [], EditKind.Close);
    DeleteFirst(t, s + from, end, c, []);
    DeleteFirst(t, start, end, Edit(s, from, [], EditKind.Open), [c]);
    assert [c] + [] == [c] && CutEdits(s, from, to, n) == [Edit(s, from, [], EditKind.Open)] + [c];
    assert Apply(t, s + n, end, []) == t[s + n..end];
  }

  // ----- the press -----------------------------------------------------------------------------------------

  /** A press that did something did what its step says. */
  lemma {:induction false} StepDid(scan: Scanner, unclosed: Str -> int, t: Str, start: nat, end: nat, a: nat, b: nat,
        step: Step, r: Toggle)
    requires start <= end <= |t| && StepFits(step, start, end)
    requires r == TakeStep(scan, unclosed, t, start, end, a, b, step) && r.status in {CommentedOut, Uncommented}
    requires step.Stop? ==> step.status in {Nothing, Refused}
    ensures r.start == start && r.end == end && step.Try? && step.status == r.status
    ensures Ordered(step.edits, start, end) && r.replacement == Apply(t, start, end, step.edits)
    ensures (r.selStart, r.selEnd) == MapSelection(a, b, step.edits)
  {
  }

  lemma {:induction false} StopsOnly(inside: Inside, ranges: seq<Range>, tagged: bool, onlyTags: bool, region: Str,
        start: nat, step: Step)
    returns (first: nat, last: nat, inner: Str)
    requires inside == InsideOf(ranges) && step == StepWith(inside, tagged, onlyTags, region, start)
    ensures step.Stop? ==> step.status in {Nothing, Refused}
    ensures step.Try? ==>
      IsCore(region, first, last, inner) && step == InnerStep(ranges, inner, start + first, start + last)
  {
    first, last, inner := RunEnd(region, 0, IsSpace), RunStart(region, |region|, IsSpace), [];
    if first < |region| {
      CoreBounds(region);
      inner := region[first..last];
      assert IsCore(region, first, last, inner);
      StopKinds(ranges, inner, start + first, start + last);
      assert step.Try? ==> step == inside(inner, start + first, start + last);
    }
  }

  lemma {:induction false} InnerTries(ranges: seq<Range>, inner: Str, s: nat, e: nat, step: Step)
    requires step == InnerStep(ranges, inner, s, e) && step.Try?
    ensures step.status == Uncommented ==> IsWholeComment(inner) && step.edits == BlockUncomment(inner, s)
    ensures step.status != Uncommented ==> step.status == CommentedOut && step.edits == BlockComment(s, e)
  {
  }

  lemma {:induction false} PressStep(steps: Steps, scan: Scanner, unclosed: Str -> int, t: Str, a: nat, b: nat,
        r: Toggle, step: Step)
    requires Fitting(steps) && a <= b <= |t| && r == StyleWith(steps, scan, unclosed, t, a, b)
    requires step == steps(t, LineStart(t, a), RegionEnd(t, a, b))
    ensures StepFits(step, LineStart(t, a), RegionEnd(t, a, b))
    ensures r == TakeStep(scan, unclosed, t, LineStart(t, a), RegionEnd(t, a, b), a, b, step)
  {
    StyleIs(steps, scan, unclosed, t, a, b);
  }

  /** The deletions for a comment that starts at an index. */
  type Deletions = (Str, nat) -> seq<Edit>

  function DeletionsOf(): Deletions {
    (inner: Str, s: nat) => if |inner| >= 7 then BlockUncomment(inner, s) else []
  }

  /** What a press did to its region: the text in it, and the edits. */
  ghost predicate Did(off: Deletions, t: Str, start: nat, end: nat, r: Toggle, first: nat, last: nat, inner: Str,
        edits: seq<Edit>)
  {
    && start <= end <= |t| && r.start == start && r.end == end && Ordered(edits, start, end)
    && r.replacement == Apply(t, start, end, edits) && IsCore(t[start..end], first, last, inner)
    && (r.status == Uncommented ==> IsWholeComment(inner) && edits == off(inner, start + first))
    && (r.status == CommentedOut ==> edits == BlockComment(start + first, start + last))
  }

  lemma {:induction false} PressDid(scan: Scanner, unclosed: Str -> int, t: Str, a: nat, b: nat, start: nat, end: nat,
        r: Toggle)
    returns (first: nat, last: nat, inner: Str, edits: seq<Edit>)
    requires a <= b <= |t| && r == ToggleBlockStyle(scan, unclosed, t, a, b) && r.status in {CommentedOut, Uncommented}
    requires start == LineStart(t, a) && end == TouchedEnd(t, a, b)
    ensures Did(DeletionsOf(), t, start, end, r, first, last, inner, edits)
    ensures (r.selStart, r.selEnd) == MapSelection(a, b, edits)
  {
    var steps := StepsOf(scan);
    assert RegionEnd(t, a, b) == end by { RegionIs(t, a, b); }
    StepsFit(scan);
    var step := steps(t, start, end);
    PressStep(steps, scan, unclosed, t, a, b, r, step);
    first, last, inner, edits := StepDoes(scan(t), scan, unclosed, t, start, end, a, b, step, r);
  }

  lemma {:induction false} StepDoes(ranges: seq<Range>, scan: Scanner, unclosed: Str -> int, t: Str, start: nat,
        end: nat, a: nat, b: nat, step: Step, r: Toggle)
    returns (first: nat, last: nat, inner: Str, edits: seq<Edit>)
    requires start <= end <= |t| && step == RegionStep(ranges, t[start..end], start) && StepFits(step, start, end)
    requires r == TakeStep(scan, unclosed, t, start, end, a, b, step) && r.status in {CommentedOut, Uncommented}
    ensures Did(DeletionsOf(), t, start, end, r, first, last, inner, edits)
    ensures (r.selStart, r.selEnd) == MapSelection(a, b, edits)
  {
    var region := t[start..end];
    first, last, inner := StopsOnly(InsideOf(ranges), ranges, HasTagLine(region), OnlyTagLines(region), region, start,
      step);
    StepDid(scan, unclosed, t, start, end, a, b, step, r);
    edits := step.edits;
    StepIs(ranges, inner, t, start, end, r, first, last, step, region);
  }

  lemma {:induction false} StepIs(ranges: seq<Range>, inner: Str, t: Str, start: nat, end: nat, r: Toggle, first: nat,
        last: nat, step: Step, region: Str)
    requires start <= end <= |t| && region == t[start..end] && IsCore(region, first, last, inner)
    requires step.Try? && step == InnerStep(ranges, inner, start + first, start + last) && r.status == step.status
    requires r.start == start && r.end == end && Ordered(step.edits, start, end)
    requires r.replacement == Apply(t, start, end, step.edits)
    ensures Did(DeletionsOf(), t, start, end, r, first, last, inner, step.edits)
  {
    InnerTries(ranges, inner, start + first, start + last, step);
  }

  lemma {:induction false} CoreSame(region: Str, first: nat, last: nat, inner: Str, first2: nat, last2: nat,
        inner2: Str)
    requires IsCore(region, first, last, inner) && IsCore(region, first2, last2, inner2)
    ensures first == first2 && last == last2 && inner == inner2
  {
  }

  /** A press that takes the comment off leaves what is between its ends, and what goes with them goes. */
  lemma {:induction false} BlockUncommented(scan: Scanner, unclosed: Str -> int, t: Str, a: nat, b: nat, start: nat,
        end: nat, region: Str, bs: BlockShape)
    requires a <= b <= |t| && ToggleBlockStyle(scan, unclosed, t, a, b).status == Uncommented
    requires start == LineStart(t, a) && end == TouchedEnd(t, a, b) && region == t[start..end] && bs.Of(region)
    ensures var r := ToggleBlockStyle(scan, unclosed, t, a, b);
      r.start == start && r.end == end && r.replacement == bs.Kept()
  {
    forall s ensures ShapeLaid(DeletionsOf(), region, bs, s) { ShapeIsLaid(region, bs, s); }
    LaidPressed(scan, unclosed, t, a, b, start, end, region, bs);
  }

  lemma {:induction false} LaidPressed(scan: Scanner, unclosed: Str -> int, t: Str, a: nat, b: nat, start: nat,
        end: nat, region: Str, bs: BlockShape)
    requires a <= b <= |t| && ToggleBlockStyle(scan, unclosed, t, a, b).status == Uncommented
    requires start == LineStart(t, a) && end == TouchedEnd(t, a, b) && region == t[start..end]
    requires forall s :: ShapeLaid(DeletionsOf(), region, bs, s)
    ensures var r := ToggleBlockStyle(scan, unclosed, t, a, b);
      r.start == start && r.end == end && r.replacement == bs.Kept()
  {
    var r := ToggleBlockStyle(scan, unclosed, t, a, b);
    var first, last, inner, edits := PressDid(scan, unclosed, t, a, b, start, end, r);
    LaidKept(DeletionsOf(), t, start, end, r, first, last, inner, edits, region, bs);
  }

  /** A comment in its region. */
  ghost predicate CoreLaid(region: Str, bs: BlockShape) {
    var n := |bs.left|;
    && IsCore(region, n, n + |bs.comment|, bs.comment) && region[..n] == bs.left
    && region[n + |bs.comment|..] == bs.right
  }

  /** What the deletions leave of it. */
  ghost predicate CutLaid(off: Deletions, bs: BlockShape, s: nat) {
    var from, to := 4 + |bs.f|, 4 + |bs.f| + |bs.mid|;
    && to <= |bs.comment| && bs.comment[from..to] == bs.mid
    && off(bs.comment, s) == CutEdits(s, from, to, |bs.comment|)
  }

  ghost predicate ShapeLaid(off: Deletions, region: Str, bs: BlockShape, s: nat) {
    CoreLaid(region, bs) && CutLaid(off, bs, s)
  }

  lemma {:induction false} ShapeIsLaid(region: Str, bs: BlockShape, s: nat)
    requires bs.Of(region)
    ensures ShapeLaid(DeletionsOf(), region, bs, s)
  {
    RegionIsLaid(region, bs);
    ShapeIsCut(bs, s);
  }

  lemma {:induction false} RegionIsLaid(region: Str, bs: BlockShape)
    requires bs.Of(region)
    ensures CoreLaid(region, bs)
  {
    RegionIsComment(bs, region, bs.comment);
  }

  lemma {:induction false} ShapeIsCut(bs: BlockShape, s: nat)
    requires bs.Valid()
    ensures CutLaid(DeletionsOf(), bs, s)
  {
    CommentCut(bs, bs.comment, s, 4 + |bs.f|, 4 + |bs.f| + |bs.mid|, |bs.comment|);
  }

  lemma {:induction false} CommentCut(bs: BlockShape, inner: Str, s: nat, from: nat, to: nat, n: nat)
    requires bs.Valid() && inner == bs.comment && from == 4 + |bs.f| && to == from + |bs.mid| && n == |inner|
    ensures n >= 7 && to <= n && inner[from..to] == bs.mid && BlockUncomment(inner, s) == CutEdits(s, from, to, n)
  {
    CommentBounds(bs, inner, from, to);
  }

  lemma {:induction false} LaidKept(off: Deletions, t: Str, start: nat, end: nat, r: Toggle, first: nat, last: nat,
        inner: Str, edits: seq<Edit>, region: Str, bs: BlockShape)
    requires Did(off, t, start, end, r, first, last, inner, edits) && r.status == Uncommented && region == t[start..end]
    requires ShapeLaid(off, region, bs, start + first)
    ensures r.replacement == bs.Kept()
  {
    CoreSame(region, first, last, inner, |bs.left|, |bs.left| + |bs.comment|, bs.comment);
    CutKeeps(t, start, end, first, last, region, 4 + |bs.f|, 4 + |bs.f| + |bs.mid|, inner, edits);
  }

  lemma {:induction false} CutKeeps(t: Str, start: nat, end: nat, first: nat, last: nat, region: Str, from: nat,
        to: nat, inner: Str, edits: seq<Edit>)
    requires start <= end <= |t| && region == t[start..end] && first < last <= |region| && inner == region[first..last]
    requires from <= to <= |inner| && edits == CutEdits(start + first, from, to, |inner|)
    ensures Ordered(edits, start, end)
    ensures Apply(t, start, end, edits) == region[..first] + (inner[from..to] + region[last..])
  {
    RegionCut(t, start, end, first, last, region, from, to);
    SliceOfSlice(region, first, last, from, to);
  }

  /** A press that puts the comment on writes it around the text, inside the white space around that. */
  lemma {:induction false} BlockCommented(scan: Scanner, unclosed: Str -> int, t: Str, a: nat, b: nat, start: nat,
        end: nat, left: Str, core: Str, right: Str)
    requires a <= b <= |t| && ToggleBlockStyle(scan, unclosed, t, a, b).status == CommentedOut
    requires start == LineStart(t, a) && end == TouchedEnd(t, a, b) && t[start..end] == left + (core + right)
    requires AllSpace(left) && AllSpace(right) && core != [] && !IsSpace(core[0]) && !IsSpace(core[|core| - 1])
    ensures var r := ToggleBlockStyle(scan, unclosed, t, a, b);
      && r.start == start && r.end == end
      && r.replacement == left + ([0x3C, 0x21, 0x2D, 0x2D, 0x20] + (core + ([0x20, 0x2D, 0x2D, 0x3E] + right)))
  {
    var r := ToggleBlockStyle(scan, unclosed, t, a, b);
    var first, last, inner, edits := PressDid(scan, unclosed, t, a, b, start, end, r);
    DidWrap(DeletionsOf(), t, start, end, r, first, last, inner, edits, left, core, right);
  }

  lemma {:induction false} DidWrap(off: Deletions, t: Str, start: nat, end: nat, r: Toggle, first: nat, last: nat,
        inner: Str, edits: seq<Edit>, left: Str, core: Str, right: Str)
    requires Did(off, t, start, end, r, first, last, inner, edits) && r.status == CommentedOut
    requires t[start..end] == left + (core + right)
    requires AllSpace(left) && AllSpace(right) && core != [] && !IsSpace(core[0]) && !IsSpace(core[|core| - 1])
    ensures r.replacement == left + (OPEN + (core + (CLOSE + right)))
  {
    var region := left + (core + right);
    assert first == |left| && last == |left| + |core| && inner == core && region[..first] == left
      && region[last..] == right && region[first..last] == core && first < last <= |region| by {
      CoreOf(left, core, right, region);
      CoreSame(region, first, last, inner, |left|, |left| + |core|, core);
    }
    RegionWritten(t, start, end, first, last, region);
    Associate(OPEN, core + CLOSE, right);
    Associate(core, CLOSE, right);
  }

  // ----- every comment that comes off has such a shape ------------------------------------------------------

  lemma {:induction false} FrontFound(inner: Str, from: nat, end: nat)
    requires |inner| >= 7 && end == |inner| - 3 && ArrowAt(inner, end) && from == InnerFrom(inner)
    ensures 4 <= from <= end && Front(inner[4..from], inner[from..end])
  {
    var nl := NextBreak(inner, 4);
    if nl < |inner| && (forall k :: 4 <= k < nl ==> TabSpaceOrReturn(inner[k])) {
      assert nl < end;
      var f := inner[4..from];
      assert f[|f| - 1] == LF && forall k :: 0 <= k < |f| - 1 ==> f[k] == inner[4 + k];
    } else {
      NotBlankLine(inner, from, end, nl);
    }
  }

  lemma {:induction false} NotBlankLine(inner: Str, from: nat, end: nat, nl: nat)
    requires |inner| >= 7 && end == |inner| - 3 && ArrowAt(inner, end) && nl == NextBreak(inner, 4)
    requires !(nl < |inner| && (forall k :: 4 <= k < nl ==> TabSpaceOrReturn(inner[k])))
    requires from == if TabOrSpace(inner[4]) then 5 else 4
    ensures from <= end && Front(inner[4..from], inner[from..end])
  {
    var b := inner[4..end];
    assert inner[end] == DASH;
    forall n | 0 <= n < |b| && b[n] == LF ensures !BlankTo(b, n) {
      assert inner[4 + n] == LF && nl <= 4 + n;
      var k :| 4 <= k < nl && !TabSpaceOrReturn(inner[k]);
      assert b[k - 4] == inner[k];
    }
    SliceJoin(inner, 4, from, end);
  }

  /** The break before the end and the blanks behind it are what goes with the end. */
  ghost predicate LineGoes(inner: Str, from: nat, end: nat, ls: nat) {
    0 < ls && from <= ls <= end <= |inner| && forall k :: ls <= k < end ==> TabOrSpace(inner[k])
  }

  lemma {:induction false} BackFound(inner: Str, from: nat, to: nat, end: nat)
    requires |inner| >= 7 && end == |inner| - 3 && ArrowAt(inner, end) && OpensAt(inner, 0) && 4 <= from <= end
    requires Front(inner[4..from], inner[from..end]) && to == InnerTo(inner, from)
    ensures from <= to <= end && Back(inner[4..from], inner[from..to], inner[to..end])
  {
    var ls := LineStart(inner, end);
    LastOf(inner, 4, from);
    assert inner[from - 1] != CR;
    if LineGoes(inner, from, end, ls) {
      LineBack(inner, from, to, end, ls);
    } else {
      SliceJoin(inner, from, to, end);
      OtherBack(inner, from, to, end, ls);
    }
  }

  lemma {:induction false} LineBack(inner: Str, from: nat, to: nat, end: nat, ls: nat)
    requires |inner| >= 7 && end == |inner| - 3 && 4 <= from && ls == LineStart(inner, end)
    requires LineGoes(inner, from, end, ls) && OpensAt(inner, 0) && inner[from - 1] != CR && to == InnerTo(inner, from)
    ensures from <= to <= end && Back(inner[4..from], inner[from..to], inner[to..end])
  {
    var f, mid, g, blanks := inner[4..from], inner[from..to], inner[to..end], inner[ls..end];
    assert AllBlanks(blanks) by { assert forall k :: 0 <= k < |blanks| ==> blanks[k] == inner[ls + k]; }
    assert inner[ls - 1] == LF;
    LastOf(inner, from, to);
    LastOf(inner, 4, from);
    if ls == from {
      assert from > 4 && EndsLf(f) && to == from && g == blanks;
    } else if inner[ls - 2] == CR {
      assert to == ls - 2 && g == [CR, LF] + blanks;
      assert BreakAndBlanks(mid, g, blanks);
    } else {
      assert to == ls - 1 && g == [LF] + blanks;
      assert BreakAndBlanks(mid, g, blanks);
    }
  }

  lemma {:induction false} OtherBack(inner: Str, from: nat, to: nat, end: nat, ls: nat)
    requires |inner| >= 7 && end == |inner| - 3 && 4 <= from <= end && ls == LineStart(inner, end)
    requires !LineGoes(inner, from, end, ls) && to == InnerTo(inner, from) && from <= to <= end
    requires inner[from..to] + inner[to..end] == inner[from..end]
    ensures Back(inner[4..from], inner[from..to], inner[to..end])
  {
    var f, mid, g, b := inner[4..from], inner[from..to], inner[to..end], inner[from..end];
    NoBlankEnd(inner, from, end, ls, f, b);
    OneBlankBack(inner, from, to, end, ls, mid, g);
  }

  lemma {:induction false} NoBlankEnd(inner: Str, from: nat, end: nat, ls: nat, f: Str, b: Str)
    requires end <= |inner| && 4 <= from <= end && ls == LineStart(inner, end) && !LineGoes(inner, from, end, ls)
    requires f == inner[4..from] && b == inner[from..end]
    ensures !EndsBlankLine(b) && !(EndsLf(f) && AllBlanks(b))
  {
    if EndsBlankLine(b) || (EndsLf(f) && AllBlanks(b)) { BlankEndGoes(inner, from, end, f, b); }
  }

  lemma {:induction false} BlankEndGoes(inner: Str, from: nat, end: nat, f: Str, b: Str)
    requires end <= |inner| && 4 <= from <= end && f == inner[4..from] && b == inner[from..end]
    requires EndsBlankLine(b) || (EndsLf(f) && AllBlanks(b))
    ensures LineGoes(inner, from, end, LineStart(inner, end))
  {
    if EndsBlankLine(b) {
      var n := LastLf(b);
      forall k | from + n + 1 <= k < end ensures TabOrSpace(inner[k]) { assert b[k - from] == inner[k]; }
      assert inner[from + n] == b[n];
      LineStartIs(inner, end, from + n + 1);
    } else {
      forall k | from <= k < end ensures TabOrSpace(inner[k]) { assert b[k - from] == inner[k]; }
      assert f[|f| - 1] == inner[from - 1];
      LineStartIs(inner, end, from);
    }
  }

  lemma {:induction false} OneBlankBack(inner: Str, from: nat, to: nat, end: nat, ls: nat, mid: Str, g: Str)
    requires |inner| >= 7 && end == |inner| - 3 && 4 <= from <= end && ls == LineStart(inner, end)
    requires !LineGoes(inner, from, end, ls) && to == InnerTo(inner, from) && from <= to <= end
    requires mid == inner[from..to] && g == inner[to..end]
    ensures AllBlanks(g) && (|g| == 1 || (g == [] && (mid == [] || !TabOrSpace(mid[|mid| - 1]))))
  {
    LastOf(inner, from, to);
    assert to == end || (to == end - 1 && g == [inner[end - 1]]);
  }

  lemma {:induction false} CommentHasShape(left: Str, inner: Str, right: Str) returns (bs: BlockShape)
    requires AllSpace(left) && AllSpace(right) && IsWholeComment(inner)
    ensures bs.Valid() && bs.left == left && bs.comment == inner && bs.right == right
  {
    var end, from := |inner| - 3, InnerFrom(inner);
    var to := InnerTo(inner, from);
    FrontFound(inner, from, end);
    BackFound(inner, from, to, end);
    bs := BlockShape(left, inner, inner[4..from], inner[from..to], inner[to..end], right);
    assert inner == OPENING + (bs.f + ((bs.mid + bs.g) + ARROW)) by { CommentParts(inner, from, to, end); }
    assert Front(bs.f, bs.mid + bs.g) by { SliceJoin(inner, from, to, end); }
  }

  lemma {:induction false} CommentParts(inner: Str, from: nat, to: nat, end: nat)
    requires 4 <= from <= to <= end && end + 3 == |inner| && OpensAt(inner, 0) && ArrowAt(inner, end)
    ensures inner == OPENING + (inner[4..from] + ((inner[from..to] + inner[to..end]) + ARROW))
  {
    var b, f, x := inner[4..end], inner[4..from], inner[from..to] + inner[to..end];
    assert inner == OPENING + (b + ARROW) by { InnerEnds(inner, end); }
    assert b == f + x by {
      SliceJoin(inner, from, to, end);
      SliceJoin(inner, 4, from, end);
    }
    Associate(f, x, ARROW);
  }

  lemma {:induction false} InnerEnds(inner: Str, end: nat)
    requires 4 <= end && end + 3 == |inner| && OpensAt(inner, 0) && ArrowAt(inner, end)
    ensures inner == OPENING + (inner[4..end] + ARROW)
  {
    assert inner[..4] == OPENING && inner[end..] == ARROW;
    assert inner == inner[..4] + (inner[4..end] + inner[end..]);
  }

  /** Whatever comes off has a shape, so the press is told for every region. */
  lemma {:induction false} UncommentedHasShape(scan: Scanner, unclosed: Str -> int, t: Str, a: nat, b: nat, start: nat,
        end: nat, region: Str)
    returns (bs: BlockShape)
    requires a <= b <= |t| && ToggleBlockStyle(scan, unclosed, t, a, b).status == Uncommented
    requires start == LineStart(t, a) && end == TouchedEnd(t, a, b) && region == t[start..end]
    ensures bs.Of(region)
  {
    var first, last, inner, edits := PressDid(scan, unclosed, t, a, b, start, end,
      ToggleBlockStyle(scan, unclosed, t, a, b));
    CoreParts(region, first, last, inner);
    bs := CommentHasShape(region[..first], inner, region[last..]);
  }

  lemma {:induction false} CoreParts(region: Str, first: nat, last: nat, inner: Str)
    requires IsCore(region, first, last, inner)
    ensures AllSpace(region[..first]) && AllSpace(region[last..])
    ensures region == region[..first] + (inner + region[last..])
  {
    CutAt(region, first, last);
    assert region == region[..first] + region[first..];
  }
}
