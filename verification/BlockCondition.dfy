/**
  Whether the next press of Ctrl+/ in the block style takes a comment off again, told from the lines before the
  comment is put on.
 */
module BlockCondition {
  import opened Text
  import opened Markers
  import opened LineCalculus
  import opened CommentToggle
  import opened CommentMarkers
  import opened CommentBlock

  /** A text without the white space around it. */
  function CoreText(region: Str): Str {
    var first, last := RunEnd(region, 0, IsSpace), RunStart(region, |region|, IsSpace);
    if first <= last then region[first..last] else []
  }

  /** The line that the end of a comment around [first, last) will be on, with what the comment puts there. */
  function ClosingAt(region: Str, first: nat, last: nat): Str
    requires first <= last <= |region|
  {
    var ls, e := LineStart(region, last), NextBreak(region, last);
    if ls <= first then region[ls..first] + (BlockText(region[first..last]) + region[last..e])
    else region[ls..last] + (CLOSE + region[last..e])
  }

  function ClosingLine(region: Str): Str {
    var first, last := RunEnd(region, 0, IsSpace), RunStart(region, |region|, IsSpace);
    if first <= last then ClosingAt(region, first, last) else []
  }

  /** That line will not read as a tag line. */
  predicate ComesOff(region: Str) {
    !IsTagLine(ClosingLine(region))
  }

  /** What is known about a region when the step is to comment it out. */
  ghost predicate CanWrap(region: Str, first: nat, last: nat) {
    && first < last <= |region| && first == RunEnd(region, 0, IsSpace) && last == RunStart(region, |region|, IsSpace)
    && !HasArrow(region[first..last]) && !HasMarker(region[first..last])
  }

  // ----- the arrow of the comment --------------------------------------------------------------------------

  lemma {:induction false} NoArrowInside(inner: Str)
    requires !HasArrow(inner)
    ensures !ArrowInside(BlockText(inner))
  {
    var x := BlockText(inner);
    forall k | 2 <= k < |x| - 3 ensures !ArrowAt(x, k) {
      BlockTextUnits(inner, 2);
      BlockTextUnits(inner, 3);
      BlockTextUnits(inner, 4);
      BlockTextUnits(inner, 0);
      if k >= 5 && k - 5 < |inner| {
        BlockTextUnits(inner, k - 5);
        BlockTextUnits(inner, k - 4);
        BlockTextUnits(inner, k - 3);
        assert !ArrowAt(inner, k - 5);
      }
    }
  }

  /** White space, a comment around a text without an arrow, white space: the only arrow is that of the comment. */
  lemma {:induction false} OneArrow(left: Str, core: Str, right: Str, s: Str, k: nat)
    requires AllSpace(left) && AllSpace(right) && !HasArrow(core) && s == left + (BlockText(core) + right)
    ensures ArrowAt(s, k) <==> k == |left| + |core| + 6
  {
    var x, n := BlockText(core), |left|;
    assert forall j :: 0 <= j < n ==> s[j] == left[j];
    assert forall j :: 0 <= j < |x| ==> s[n + j] == x[j];
    assert forall j :: 0 <= j < |right| ==> s[n + |x| + j] == right[j];
    NoArrowInside(core);
    BlockTextUnits(core, 0);
    BlockTextUnits(core, 1);
    BlockTextUnits(core, 2);
    BlockTextUnits(core, 3);
    if ArrowAt(s, k) {
      assert n <= k && k + 2 < n + |x|;
      assert ArrowAt(x, k - n);
      assert x[0] == LESS && x[1] == BANG;
    }
  }

  ghost predicate OnlyArrowAt(s: Str, at: nat) {
    forall k: nat :: ArrowAt(s, k) <==> k == at
  }

  /** A test of a line that only a line with an arrow can pass. */
  ghost predicate NeedsArrow(test: Str -> bool) {
    forall line: Str :: test(line) ==> HasArrow(line)
  }

  ghost predicate SomeLine(s: Str, test: Str -> bool) {
    exists i :: 0 <= i < |SplitLines(s)| && test(SplitLines(s)[i])
  }

  lemma {:induction false} SomeLineCons(s: Str, test: Str -> bool)
    requires NextBreak(s, 0) < |s|
    ensures SomeLine(s, test) <==> test(s[..NextBreak(s, 0)]) || SomeLine(s[NextBreak(s, 0) + 1..], test)
  {
    var nl := NextBreak(s, 0);
    var all, rest := SplitLines(s), SplitLines(s[nl + 1..]);
    assert all == [s[..nl]] + rest;
    if test(s[..nl]) { assert test(all[0]); }
    forall i | 0 <= i < |rest| && test(rest[i]) ensures SomeLine(s, test) { assert test(all[i + 1]); }
    forall i | 0 <= i < |all| && test(all[i]) ensures test(s[..nl]) || SomeLine(s[nl + 1..], test) {
      if i > 0 { assert test(rest[i - 1]); }
    }
  }

  lemma {:induction false} NoArrowNoLine(s: Str, test: Str -> bool)
    requires NeedsArrow(test) && !HasArrow(s)
    ensures !SomeLine(s, test)
    decreases |s|
  {
    var nl := NextBreak(s, 0);
    NoArrowIn(s, 0, nl);
    if nl < |s| {
      NoArrowIn(s, nl + 1, |s|);
      assert s[nl + 1..] == s[nl + 1..|s|];
      SomeLineCons(s, test);
      NoArrowNoLine(s[nl + 1..], test);
    } else {
      assert s[0..nl] == s;
    }
    assert s[..nl] == s[0..nl];
  }

  lemma {:induction false} NoArrowIn(s: Str, a: nat, b: nat)
    requires a <= b <= |s| && forall k: nat :: a <= k < b ==> !ArrowAt(s, k)
    ensures !HasArrow(s[a..b])
  {
    var x := s[a..b];
    assert forall k: nat :: k < |x| ==> x[k] == s[a + k];
    forall k: nat | k < |x| ensures ArrowAt(x, k) ==> ArrowAt(s, a + k) {}
  }

  /** In a text with one arrow, the line of that arrow is the only one that can pass. */
  lemma {:induction false} LineOfArrow(s: Str, test: Str -> bool, at: nat, line: Str)
    requires NeedsArrow(test) && at < |s| && OnlyArrowAt(s, at) && line == s[LineStart(s, at)..NextBreak(s, at)]
    ensures SomeLine(s, test) <==> test(line)
    decreases |s|, 1
  {
    var nl := NextBreak(s, 0);
    if nl == |s| {
      OnlyLine(s, test, at, line);
    } else if at < nl {
      ArrowInFirst(s, test, at, nl, line);
    } else {
      ArrowBehind(s, test, at, nl);
      LaterLine(s, test, at, nl, s[nl + 1..], line);
      SomeLineCons(s, test);
    }
  }

  lemma {:induction false} LaterLine(s: Str, test: Str -> bool, at: nat, nl: nat, rest: Str, line: Str)
    requires NeedsArrow(test) && nl < at < |s| && s[nl] == LF && rest == s[nl + 1..]
    requires OnlyArrowAt(rest, at - nl - 1) && line == s[LineStart(s, at)..NextBreak(s, at)]
    ensures SomeLine(rest, test) <==> test(line)
    decreases |s|, 0
  {
    LineBehind(s, nl, at, line);
    LineOfArrow(rest, test, at - nl - 1, line);
  }

  lemma {:induction false} OnlyLine(s: Str, test: Str -> bool, at: nat, line: Str)
    requires at < |s| && NextBreak(s, 0) == |s| && line == s[LineStart(s, at)..NextBreak(s, at)]
    ensures SomeLine(s, test) <==> test(line)
  {
    LineStartIs(s, at, 0);
    BreakIs(s, at, |s|);
    var all := SplitLines(s);
    assert all == [s] && line == s;
    assert test(s) ==> test(all[0]);
  }

  lemma {:induction false} ArrowInFirst(s: Str, test: Str -> bool, at: nat, nl: nat, line: Str)
    requires NeedsArrow(test) && at < nl < |s| && nl == NextBreak(s, 0) && OnlyArrowAt(s, at)
    requires line == s[LineStart(s, at)..NextBreak(s, at)]
    ensures SomeLine(s, test) <==> test(line)
  {
    LineStartIs(s, at, 0);
    BreakIs(s, at, nl);
    NoArrowIn(s, nl + 1, |s|);
    assert s[nl + 1..] == s[nl + 1..|s|] && s[..nl] == line;
    NoArrowNoLine(s[nl + 1..], test);
    SomeLineCons(s, test);
  }

  lemma {:induction false} ArrowBehind(s: Str, test: Str -> bool, at: nat, nl: nat)
    requires NeedsArrow(test) && nl <= at < |s| && nl == NextBreak(s, 0) && OnlyArrowAt(s, at)
    ensures nl < at && !test(s[..nl]) && OnlyArrowAt(s[nl + 1..], at - nl - 1)
  {
    assert ArrowAt(s, at);
    NoArrowIn(s, 0, nl);
    assert s[..nl] == s[0..nl];
    var rest := s[nl + 1..];
    assert forall k :: 0 <= k < |rest| ==> rest[k] == s[nl + 1 + k];
    forall k: nat ensures ArrowAt(rest, k) <==> k == at - nl - 1 { assert ArrowAt(rest, k) == ArrowAt(s, nl + 1 + k); }
  }

  /** A line behind the first break is the same line of the rest. */
  lemma {:induction false} LineBehind(s: Str, nl: nat, at: nat, line: Str)
    requires nl < at < |s| && s[nl] == LF && line == s[LineStart(s, at)..NextBreak(s, at)]
    ensures var rest, j := s[nl + 1..], at - nl - 1;
      rest[LineStart(rest, j)..NextBreak(rest, j)] == line
  {
    var rest, j := s[nl + 1..], at - nl - 1;
    assert forall k :: 0 <= k < |rest| ==> rest[k] == s[nl + 1 + k];
    var ls, e := LineStart(s, at), NextBreak(s, at);
    assert ls > nl;
    LineStartIs(rest, j, ls - nl - 1);
    BreakIs(rest, j, e - nl - 1);
  }

  // ----- the line of the arrow, before and after -----------------------------------------------------------

  lemma {:induction false} TagHasArrow(line: Str)
    requires IsTagLine(line)
    ensures HasArrow(line)
  {
    var b, e := RunEnd(line, 0, TabOrSpace), RunStart(line, |line|, TabSpaceOrReturn);
    var s := line[b..e];
    assert ArrowAt(s, |s| - 3);
    assert ArrowAt(line, e - 3);
  }

  /** Where that line starts and ends, in a text that has the units of the region around those of the comment. */
  lemma {:induction false} ClosingBounds(region: Str, first: nat, last: nat, s: Str)
    requires first < last <= |region| && |s| == |region| + 9
    requires forall k :: 0 <= k < first ==> s[k] == region[k]
    requires forall k :: first <= k < first + 5 || last + 5 <= k < last + 9 ==> s[k] != LF
    requires forall k :: first <= k < last ==> s[k + 5] == region[k]
    requires forall k :: last <= k < |region| ==> s[k + 9] == region[k]
    ensures var ls := LineStart(region, last); LineStart(s, last + 6) == if ls <= first then ls else ls + 5
    ensures NextBreak(s, last + 6) == NextBreak(region, last) + 9
  {
    var ls, e := LineStart(region, last), NextBreak(region, last);
    forall k | last + 6 <= k < e + 9 ensures s[k] != LF {
      if k >= last + 9 { assert s[(k - 9) + 9] == region[k - 9]; }
    }
    BreakIs(s, last + 6, e + 9);
    forall k | (if ls <= first then ls else ls + 5) <= k < last + 6 ensures s[k] != LF {
      if first + 5 <= k < last + 5 { assert s[(k - 5) + 5] == region[k - 5]; }
    }
    if ls > first { assert s[(ls - 1) + 5] == region[ls - 1]; }
    LineStartIs(s, last + 6, if ls <= first then ls else ls + 5);
  }

  lemma {:induction false} SliceInFront(a: Str, b: Str, x: Str, c: Str, d: Str, s: Str)
    requires s == (a + b) + (x + (c + d))
    ensures s[|a|..|a| + |b| + |x| + |c|] == b + (x + c)
  {
    Associate(a, b, x + (c + d));
    Associate(x, c, d);
    Associate(b, x + c, d);
    MiddlePart(a, b + (x + c), d);
  }

  lemma {:induction false} SliceInside(a: Str, b: Str, c: Str, x: Str, d: Str, e: Str, s: Str)
    requires s == a + ((b + ((c + d) + x)) + e)
    ensures |a| + |b| + |c| <= |s| && s[|a| + |b| + |c|..] == d + (x + e)
  {
    Associate(c, d, x);
    Associate(b, c, d + x);
    Associate(b + c, d + x, e);
    Associate(d, x, e);
    Associate(a, b + c, (d + x) + e);
  }

  lemma {:induction false} BoundsOfClosing(region: Str, first: nat, last: nat, s: Str)
    requires first < last <= |region| && s == region[..first] + (BlockText(region[first..last]) + region[last..])
    ensures |s| == |region| + 9 && NextBreak(s, last + 6) == NextBreak(region, last) + 9
    ensures var ls := LineStart(region, last); LineStart(s, last + 6) == if ls <= first then ls else ls + 5
  {
    ClosingUnits(region, first, last, s);
    ClosingBounds(region, first, last, s);
  }

  lemma {:induction false} ClosingUnits(region: Str, first: nat, last: nat, s: Str)
    requires first < last <= |region| && s == region[..first] + (BlockText(region[first..last]) + region[last..])
    ensures |s| == |region| + 9
    ensures forall k :: 0 <= k < first ==> s[k] == region[k]
    ensures forall k :: first <= k < first + 5 || last + 5 <= k < last + 9 ==> s[k] != LF
    ensures forall k :: first <= k < last ==> s[k + 5] == region[k]
    ensures forall k :: last <= k < |region| ==> s[k + 9] == region[k]
  {
    var left, core, right := region[..first], region[first..last], region[last..];
    var x := BlockText(core);
    forall k: nat | k < 5 ensures s[first + k] == OPEN[k] {
      BlockTextUnits(core, k);
      ThreeParts(left, x, right, k);
    }
    forall k: nat | k < 4 ensures s[last + 5 + k] == CLOSE[k] {
      BlockTextUnits(core, k);
      ThreeParts(left, x, right, |core| + 5 + k);
    }
    forall k: nat | k < |core| ensures s[first + k + 5] == core[k] {
      BlockTextUnits(core, k);
      ThreeParts(left, x, right, 5 + k);
    }
    forall k: nat | k < |region| - last ensures s[last + k + 9] == right[k] { ThreeParts(left, x, right, k); }
    forall k: nat | k < first ensures s[k] == region[k] { ThreeParts(left, x, right, k); }
    UnitsOfComment(region, first, last, s);
  }

  lemma {:induction false} UnitsOfComment(region: Str, first: nat, last: nat, s: Str)
    requires first < last <= |region| && |s| == |region| + 9
    requires forall k: nat :: k < 5 ==> s[first + k] == OPEN[k]
    requires forall k: nat :: k < 4 ==> s[last + 5 + k] == CLOSE[k]
    requires forall k: nat :: k < last - first ==> s[first + k + 5] == region[first..last][k]
    requires forall k: nat :: k < |region| - last ==> s[last + k + 9] == region[last..][k]
    ensures forall k :: first <= k < first + 5 || last + 5 <= k < last + 9 ==> s[k] != LF
    ensures forall k :: first <= k < last ==> s[k + 5] == region[k]
    ensures forall k :: last <= k < |region| ==> s[k + 9] == region[k]
  {
    forall k | first <= k < first + 5 ensures s[k] != LF { assert s[first + (k - first)] == OPEN[k - first]; }
    forall k | last + 5 <= k < last + 9
      ensures s[k] != LF
    {
      assert s[last + 5 + (k - last - 5)] == CLOSE[k - last - 5];
    }
    forall k | first <= k < last ensures s[k + 5] == region[k] {
      var j: nat := k - first;
      assert s[first + j + 5] == region[first..last][j];
    }
    forall k | last <= k < |region| ensures s[k + 9] == region[k] {
      var j: nat := k - last;
      assert s[last + j + 9] == region[last..][j];
    }
  }

  lemma {:induction false} FrontLine(region: Str, first: nat, last: nat, s: Str, ls: nat, e: nat)
    requires ls <= first < last <= e <= |region|
    requires s == region[..first] + (BlockText(region[first..last]) + region[last..])
    ensures |s| == |region| + 9
    ensures s[ls..e + 9] == region[ls..first] + (BlockText(region[first..last]) + region[last..e])
  {
    var x := BlockText(region[first..last]);
    assert |x| == last - first + 9;
    assert region[..first] == region[..ls] + region[ls..first] && region[last..] == region[last..e] + region[e..];
    SliceInFront(region[..ls], region[ls..first], x, region[last..e], region[e..], s);
  }

  lemma {:induction false} InnerLine(region: Str, first: nat, last: nat, s: Str, ls: nat, e: nat)
    requires first < ls <= last <= e <= |region|
    requires s == region[..first] + (BlockText(region[first..last]) + region[last..])
    ensures |s| == |region| + 9
    ensures s[ls + 5..e + 9] == region[ls..last] + (CLOSE + region[last..e])
  {
    assert region[first..last] == region[first..ls] + region[ls..last];
    SliceInside(region[..first], OPEN, region[first..ls], CLOSE, region[ls..last], region[last..], s);
    assert region[last..] == region[last..e] + region[e..];
    Associate(CLOSE, region[last..e], region[e..]);
    Associate(region[ls..last], CLOSE + region[last..e], region[e..]);
    assert s[ls + 5..] == (region[ls..last] + (CLOSE + region[last..e])) + region[e..];
    assert s[ls + 5..e + 9] == s[ls + 5..][..e + 4 - ls];
  }

  /** The line that the end of the comment is on, in the region with the comment. */
  lemma {:induction false} ClosingLineIs(region: Str, first: nat, last: nat, s: Str, at: nat, line: Str)
    requires first < last <= |region| && s == region[..first] + (BlockText(region[first..last]) + region[last..])
    requires at == last + 6 && line == ClosingAt(region, first, last)
    ensures at < |s| && line == s[LineStart(s, at)..NextBreak(s, at)]
  {
    var ls, e := LineStart(region, last), NextBreak(region, last);
    BoundsOfClosing(region, first, last, s);
    if ls <= first {
      assert s[ls..e + 9] == line by { FrontLine(region, first, last, s, ls, e); }
    } else {
      assert s[ls + 5..e + 9] == line by { InnerLine(region, first, last, s, ls, e); }
    }
  }

  /** Only the line of the arrow can pass. */
  lemma {:induction false} OnlyClosingLine(region: Str, first: nat, last: nat, s: Str, test: Str -> bool)
    requires CanWrap(region, first, last) && s == region[..first] + (BlockText(region[first..last]) + region[last..])
    requires NeedsArrow(test)
    ensures SomeLine(s, test) <==> test(ClosingLine(region))
  {
    var at, line := last + 6, ClosingLine(region);
    WrappedLine(region, first, last, line);
    ClosingLineIs(region, first, last, s, at, line);
    OnlyArrow(region, first, last, s);
    LineOfArrow(s, test, at, line);
  }

  lemma {:induction false} WrappedLine(region: Str, first: nat, last: nat, line: Str)
    requires CanWrap(region, first, last) && line == ClosingLine(region)
    ensures line == ClosingAt(region, first, last)
  {
  }

  lemma {:induction false} OnlyArrow(region: Str, first: nat, last: nat, s: Str)
    requires CanWrap(region, first, last) && s == region[..first] + (BlockText(region[first..last]) + region[last..])
    ensures OnlyArrowAt(s, last + 6)
  {
    forall k: nat ensures ArrowAt(s, k) <==> k == last + 6 {
      OneArrow(region[..first], region[first..last], region[last..], s, k);
    }
  }

  lemma {:induction false} TagTest(s: Str)
    ensures SomeLine(s, IsTagLine) == HasTagLine(s)
  {
  }

  /** What the next press sees of the written region can be told from the region as it was. */
  lemma {:induction false} ComesOffIff(region: Str, first: nat, last: nat, s: Str)
    requires CanWrap(region, first, last) && s == region[..first] + (BlockText(region[first..last]) + region[last..])
    ensures HasTagLine(s) <==> !ComesOff(region)
  {
    forall line | IsTagLine(line) ensures HasArrow(line) { TagHasArrow(line); }
    OnlyClosingLine(region, first, last, s, IsTagLine);
    TagTest(s);
  }
}
