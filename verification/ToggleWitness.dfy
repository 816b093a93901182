/**
  One line of text, and Ctrl+/ pressed twice on it with the scanner of HTML comments: when the line comes back, one
  that never does because it reads as a tag line once it is a comment, and one that is never commented out.
 */
module ToggleWitness {
  import opened Text
  import opened Markers
  import opened EditCalculus
  import opened LineCalculus
  import opened CommentToggle
  import opened ToggleRoundTrip
  import opened ToggleTheorem
  import opened CommentBlock
  import opened BlockCondition
  import opened BlockTheorem
  import opened CommentMarkers
  import opened HtmlComments

  /** One line of text without angle brackets, and with nothing to trim. */
  ghost predicate OneLineText(x: Str) {
    && x != [] && !IsSpace(x[0]) && !IsSpace(x[|x| - 1])
    && forall k :: 0 <= k < |x| ==> x[k] != LF && x[k] != CR && x[k] != LESS && x[k] != GREATER
  }

  // ----- what the scanner finds ----------------------------------------------------------------------------

  /** Nothing in such a line; the comment around it, unless that is a marker. */
  lemma {:induction false} OneLineScans(x: Str)
    requires OneLineText(x)
    ensures Scan(x) == NOTHING
    ensures Scan(BlockText(x)) == Scanned(OneComment(x), -1)
    ensures HasMarker(BlockText(x)) <==> MarkerHere(BlockText(x))
  {
    var c := BlockText(x);
    OpenIs(x, 0, |x|);
    assert c[0..] == c;
    if HasMarker(c) {
      assert !HasMarker(x) by { assert forall i :: 0 <= i < |x| ==> x[i] == x[i..][0]; }
      OnlyOpeningMarks(x);
    }
    if MarkerHere(c) { assert MarkerAt(c, 0); }
    CommentScans(x, c, RulesOf(c));
  }

  /** The comment that is reported on the line that is nothing but a comment around x. */
  function OneComment(x: Str): seq<Range> {
    if MarkerHere(BlockText(x)) then [] else [Range(0, |x| + 9)]
  }

  lemma {:induction false} CommentScans(x: Str, c: Str, rules: Rules)
    requires OneLineText(x) && c == BlockText(x) && rules == RulesOf(c) && c[0..] == c
    ensures ScanLines(rules, c, 0, None) == Scanned(OneComment(x), -1)
  {
    CommentUnits(x, c);
    BreakIs(c, 0, |c|);
    NoFenceThere(c, 0, 0);
    assert rules.fences(0).None?;
    assert rules.marker(0) == MarkerHere(c);
    assert OpenFrom(c, |c|) == |c|;
    var rest := ScanComments(rules, c, |c|, |c|);
    assert ScanLines(rules, c, |c| + 1, None) == NOTHING;
    assert rest == NOTHING;
    assert [Range(0, |c|)] + [] == [Range(0, |c|)];
    assert SpanEnd(c, 0, 0, |c|).None?;
  }

  /** It starts with the only "<" and ends with the only ">", and has no line feed. */
  lemma {:induction false} CommentUnits(x: Str, c: Str)
    requires OneLineText(x) && c == BlockText(x)
    ensures OpensAt(c, 0) && OpenFrom(c, 0) == 0 && ArrowFrom(c, 2) == |c| - 3 && NoBreak(c)
  {
    BlockTextEnds(x);
    forall k: nat | k < |x| ensures c[5 + k] == x[k] { BlockTextUnits(x, k); }
    forall k: nat | k < 4 ensures c[|x| + 5 + k] == CLOSE[k] { BlockTextUnits(x, k); }
    forall k: nat | k < 5 ensures c[k] == OPEN[k] { BlockTextUnits(x, k); }
    assert forall k :: 5 <= k < |x| + 5 ==> c[k] == x[k - 5];
    assert forall k :: |x| + 5 <= k < |c| ==> c[k] == CLOSE[k - |x| - 5];
    assert forall k :: 0 <= k < |c| - 1 ==> c[k] != GREATER;
    ArrowIs(c, 2, |c| - 3);
  }

  lemma {:induction false} ArrowIs(t: Str, i: nat, p: nat)
    requires i <= p <= |t| && ArrowAt(t, p) && forall k: nat :: k < |t| && k < p + 2 ==> t[k] != GREATER
    ensures ArrowFrom(t, i) == p
  {
  }

  /** Such a line is plain. */
  lemma {:induction false} PlainLine(x: Str)
    requires OneLineText(x)
    ensures KindOf(x, [], 0, x) == Plain && !HasTagLine(x) && !HasMarker(x) && !HasArrow(x) && Indent(x) == 0
    ensures SplitLines(x) == [x] && WithoutReturn(x) == x && CommentText(x) == BlockText(x)
    ensures LineStart(x, 0) == 0 && RegionEnd(x, 0, 0) == |x|
  {
    assert !AllSpace(x);
    assert !IsTagLine(x) by { if IsTagLine(x) { TagHasArrow(x); } }
    BreakIs(x, 0, |x|);
    assert SplitLines(x) == [x];
    assert x[..0] == [] && x[0..] == x && [] + BlockText(x) == BlockText(x);
  }

  /** The scanner finds the comment around x, and nothing in x. */
  ghost predicate Knows(scan: Scanner, x: Str) {
    CommentScanner(scan) && scan(x) == [] && scan(BlockText(x)) == OneComment(x)
  }

  lemma {:induction false} RangesKnow(x: Str)
    requires OneLineText(x)
    ensures Knows(Ranges(), x)
  {
    ScannerKeepsPromise();
    OneLineScans(x);
  }

  /** The answer to the first press on such a line. */
  function FirstAnswer(x: Str): Status {
    if MarkerHere(BlockText(x)) then Refused else CommentedOut
  }

  /** The second press gives the line back exactly under a condition. */
  ghost predicate Returns(x: Str, t2: Str, back: Toggle, good: bool) {
    back.start <= back.end <= |t2| && (NoteAfter(t2, back) == x <==> good)
  }

  /**
    The press twice on such a line: it is refused where the comment would be a marker; else the line comes back,
    unless it reads as a tag line once it is a comment.
   */
  ghost predicate Outcome(x: Str, r: Toggle, back: Toggle) {
    var t2 := BlockText(x);
    && r.status == FirstAnswer(x) && r.start <= r.end <= |x|
    && (r.status == Refused ==> NoteAfter(x, r) == x)
    && (r.status == CommentedOut ==> NoteAfter(x, r) == t2 && Returns(x, t2, back, !IsTagLine(t2)))
  }

  // ----- the line style ------------------------------------------------------------------------------------

  lemma {:induction false} LinePress(x: Str, scan: Scanner, unclosed: Str -> int, r: Toggle)
    requires OneLineText(x) && Knows(scan, x) && r == ToggleLineStyle(scan, unclosed, x, 0, 0)
    ensures r.status == FirstAnswer(x) && r.start == 0 && r.end == |x|
    ensures RegionLines(x, [], 0, |x|) == [Line(0, x, Plain)]
    ensures NoteAfter(x, r) == if r.status == CommentedOut then BlockText(x) else x
  {
    var l := Line(0, x, Plain);
    PlainLine(x);
    assert x[0..|x|] == x;
    assert RegionLines(x, [], 0, |x|) == [l];
    LineComes(x, l, Comment(l));
    StyleIsToggle(scan, unclosed, x, 0, 0);
    LineToggles(x, scan, unclosed, l);
  }

  /** What the edits of the line make of it. */
  lemma {:induction false} LineComes(x: Str, l: Line, edits: seq<Edit>)
    requires x != [] && l == Line(0, x, Plain) && Indent(x) == 0 && edits == Comment(l)
    ensures EditsOf([l], true) == edits && Ordered(edits, 0, |x|) && Edited(x, 0, |x|, edits) == BlockText(x)
    ensures Added([l], edits) == [Range(0, |x| + 9)]
  {
    var d, e := edits[0], edits[1];
    assert [l][1..] == [] && edits + [] == edits;
    assert edits[1..] == [e] && [e][1..] == [];
    assert MapPos(0, [e], Never) == 0 && MapPos(0, edits, Never) == 0;
    assert Apply(x, |x|, |x|, []) == [];
    assert Apply(x, 0, |x|, [e]) == x + (CLOSE + []);
    assert Apply(x, 0, |x|, edits) == [] + (OPEN + (x + (CLOSE + [])));
    assert CLOSE + [] == CLOSE && [] + BlockText(x) == BlockText(x);
    assert x[..0] == [] && x[|x|..] == [];
  }

  lemma {:induction false} LineToggles(x: Str, scan: Scanner, unclosed: Str -> int, l: Line)
    requires l == Line(0, x, Plain) && Knows(scan, x) && RegionLines(x, [], 0, |x|) == [l]
    requires EditsOf([l], true) == Comment(l) && Ordered(Comment(l), 0, |x|)
    requires Edited(x, 0, |x|, Comment(l)) == BlockText(x) && Added([l], Comment(l)) == [Range(0, |x| + 9)]
    ensures var r := LineToggle(scan, unclosed, x, 0, |x|, 0, 0);
      r.status == FirstAnswer(x) && NoteAfter(x, r) == if r.status == CommentedOut then BlockText(x) else x
  {
    assert HasKind([l], Plain) by { assert [l][0].kind == Plain; }
    OneExpected(x, Comment(l));
  }

  /** The comments that should be there after the first press. */
  lemma {:induction false} OneExpected(x: Str, edits: seq<Edit>)
    ensures SortByStart(Kept([], [], edits) + [Range(0, |x| + 9)]) == [Range(0, |x| + 9)]
    ensures OneComment(x) == [Range(0, |x| + 9)] <==> !MarkerHere(BlockText(x))
  {
    var expected := [Range(0, |x| + 9)];
    assert expected[1..] == [] && SortByStart(expected) == expected;
    assert Kept([], [], edits) + expected == expected;
  }

  lemma {:induction false} LineOutcome(x: Str, unclosed: Str -> int)
    requires OneLineText(x)
    ensures var r := ToggleLineStyle(Ranges(), unclosed, x, 0, 0);
      Outcome(x, r, ToggleLineStyle(Ranges(), unclosed, BlockText(x), r.selStart, r.selEnd))
  {
    RangesKnow(x);
    LineComesBack(x, Ranges(), unclosed);
  }

  lemma {:induction false} LineComesBack(x: Str, scan: Scanner, unclosed: Str -> int)
    requires OneLineText(x) && Knows(scan, x)
    ensures var r := ToggleLineStyle(scan, unclosed, x, 0, 0);
      Outcome(x, r, ToggleLineStyle(scan, unclosed, BlockText(x), r.selStart, r.selEnd))
  {
    var r := ToggleLineStyle(scan, unclosed, x, 0, 0);
    LinePress(x, scan, unclosed, r);
    if r.status == CommentedOut { LineReturns(x, scan, unclosed, r); }
  }

  lemma {:induction false} LineReturns(x: Str, scan: Scanner, unclosed: Str -> int, r: Toggle)
    requires OneLineText(x) && Knows(scan, x) && r == ToggleLineStyle(scan, unclosed, x, 0, 0)
    requires r.status == CommentedOut && r.start == 0 && r.end == |x| && NoteAfter(x, r) == BlockText(x)
    requires RegionLines(x, [], 0, |x|) == [Line(0, x, Plain)]
    ensures Returns(x, BlockText(x), ToggleLineStyle(scan, unclosed, BlockText(x), r.selStart, r.selEnd),
      !IsTagLine(BlockText(x)))
  {
    OneLineTaken(x, [Line(0, x, Plain)]);
    LineRoundTrip(scan, unclosed, x, 0, 0);
  }

  lemma {:induction false} OneLineTaken(x: Str, lines: seq<Line>)
    requires OneLineText(x) && lines == [Line(0, x, Plain)]
    ensures AllTakenBack(lines) <==> !IsTagLine(BlockText(x))
  {
    PlainLine(x);
    assert LineTakenBack(lines[0]) <==> !ReadsAsTag(x);
  }

  // ----- the block style -----------------------------------------------------------------------------------

  lemma {:induction false} BlockPress(x: Str, scan: Scanner, unclosed: Str -> int, r: Toggle)
    requires OneLineText(x) && Knows(scan, x) && r == ToggleBlockStyle(scan, unclosed, x, 0, 0)
    ensures r.status == FirstAnswer(x) && r.start == 0 && r.end == |x|
    ensures NoteAfter(x, r) == if r.status == CommentedOut then BlockText(x) else x
  {
    PlainLine(x);
    var edits := BlockComment(0, |x|);
    LineComes(x, Line(0, x, Plain), edits);
    assert StepsOf(scan)(x, 0, |x|) == Try(edits, [], [Range(0, |x| + 9)], CommentedOut) by { BlockStep(x); }
    StepsFit(scan);
    StyleIs(StepsOf(scan), scan, unclosed, x, 0, 0);
    BlockTries(x, scan, unclosed, edits);
  }

  lemma {:induction false} BlockStep(x: Str)
    requires OneLineText(x)
    ensures RegionStep([], x[0..|x|], 0) == Try(BlockComment(0, |x|), [], [Range(0, |x| + 9)], CommentedOut)
  {
    PlainLine(x);
    assert x[0..|x|] == x;
    RunEndIs(x, 0, 0, IsSpace);
    RunStartIs(x, |x|, |x|, IsSpace);
  }

  lemma {:induction false} BlockTries(x: Str, scan: Scanner, unclosed: Str -> int, edits: seq<Edit>)
    requires Knows(scan, x) && Ordered(edits, 0, |x|) && Edited(x, 0, |x|, edits) == BlockText(x)
    ensures var r := Tried(scan, unclosed, x, 0, |x|, 0, 0, edits, [], [Range(0, |x| + 9)], CommentedOut);
      && r.status == FirstAnswer(x) && r.start == 0 && r.end == |x|
      && NoteAfter(x, r) == if r.status == CommentedOut then BlockText(x) else x
  {
    OneExpected(x, edits);
  }

  lemma {:induction false} BlockOutcome(x: Str, unclosed: Str -> int)
    requires OneLineText(x)
    ensures var r := ToggleBlockStyle(Ranges(), unclosed, x, 0, 0);
      Outcome(x, r, ToggleBlockStyle(Ranges(), unclosed, BlockText(x), r.selStart, r.selEnd))
  {
    RangesKnow(x);
    BlockComesBack(x, Ranges(), unclosed);
  }

  lemma {:induction false} BlockComesBack(x: Str, scan: Scanner, unclosed: Str -> int)
    requires OneLineText(x) && Knows(scan, x)
    ensures var r := ToggleBlockStyle(scan, unclosed, x, 0, 0);
      Outcome(x, r, ToggleBlockStyle(scan, unclosed, BlockText(x), r.selStart, r.selEnd))
  {
    var r := ToggleBlockStyle(scan, unclosed, x, 0, 0);
    BlockPress(x, scan, unclosed, r);
    if r.status == CommentedOut { BlockReturns(x, scan, unclosed, r); }
  }

  lemma {:induction false} BlockReturns(x: Str, scan: Scanner, unclosed: Str -> int, r: Toggle)
    requires OneLineText(x) && Knows(scan, x) && r == ToggleBlockStyle(scan, unclosed, x, 0, 0)
    requires r.status == CommentedOut && r.start == 0 && r.end == |x| && NoteAfter(x, r) == BlockText(x)
    ensures Returns(x, BlockText(x), ToggleBlockStyle(scan, unclosed, BlockText(x), r.selStart, r.selEnd),
      !IsTagLine(BlockText(x)))
  {
    var r1, t2, back, good := BothPresses(scan, unclosed, x, 0, 0);
    assert x[0..|x|] == x;
    OneLineComesOff(x);
  }

  lemma {:induction false} OneLineComesOff(x: Str)
    requires OneLineText(x)
    ensures ComesOff(x) <==> !IsTagLine(BlockText(x))
  {
    RunEndIs(x, 0, 0, IsSpace);
    RunStartIs(x, |x|, |x|, IsSpace);
    LineStartIs(x, |x|, 0);
    assert x[0..0] == [] && x[|x|..|x|] == [] && x[0..|x|] == x;
    assert [] + (BlockText(x) + []) == BlockText(x);
    assert ClosingLine(x) == BlockText(x);
  }

  // ----- a line that does not come back, and one that is refused ---------------------------------------------

  /** "tags: a" */
  const TAGS: Str := [0x74, 0x61, 0x67, 0x73, COLON, SPACE, 0x61]

  /** "md-memo:x" */
  const MEMO: Str := MD_MEMO + [0x78]

  lemma {:induction false} TagsReadAsTags()
    ensures IsTagLine(BlockText(TAGS))
  {
    var inner := [SPACE] + (TAGS + [SPACE]);
    CommentParts(TAGS, inner);
    TagsKey(inner);
    TagLineIs(BlockText(TAGS), inner);
  }

  lemma {:induction false} CommentParts(x: Str, inner: Str)
    requires x != [] && !IsSpace(x[0]) && !IsSpace(x[|x| - 1]) && inner == [SPACE] + (x + [SPACE])
    ensures var c := BlockText(x);
      |c| == |x| + 9 && OpensAt(c, 0) && ArrowAt(c, |c| - 3) && c[4..|c| - 3] == inner
  {
    var c := BlockText(x);
    BlockTextEnds(x);
    assert c == [LESS, BANG, DASH, DASH] + (inner + [DASH, DASH, GREATER]);
    MiddlePart([LESS, BANG, DASH, DASH], inner, [DASH, DASH, GREATER]);
  }

  lemma {:induction false} TagsKey(inner: Str)
    requires inner == [SPACE, 0x74, 0x61, 0x67, 0x73, COLON, SPACE, 0x61, SPACE]
    ensures FirstColon(inner) == 5 && LowerAll(Trim(inner[..5])) == TAGS_KEY && !HasArrow(inner) && !HasOpen(inner)
  {
    RunEndIs(inner, 0, 5, c => c != COLON);
    assert inner[..5] == [SPACE] + TAGS_KEY + [];
    TrimCore([SPACE], TAGS_KEY, []);
    assert LowerAll(TAGS_KEY) == TAGS_KEY;
  }

  /** A whole comment with a tag key is a tag line. */
  lemma {:induction false} TagLineIs(x: Str, inner: Str)
    requires |x| >= 7 && OpensAt(x, 0) && ArrowAt(x, |x| - 3) && inner == x[4..|x| - 3]
    requires !HasArrow(inner) && !HasOpen(inner) && FirstColon(inner) < |inner|
    requires LowerAll(Trim(inner[..FirstColon(inner)])) == TAGS_KEY
    ensures IsTagLine(x)
  {
    RunEndIs(x, 0, 0, TabOrSpace);
    RunStartIs(x, |x|, |x|, TabSpaceOrReturn);
    assert x[0..|x|] == x;
  }

  lemma {:induction false} MemoReadsAsMarker()
    ensures MarkerHere(BlockText(MEMO))
  {
    var x := BlockText(MEMO);
    assert x == OPEN + (MD_MEMO + ([0x78] + CLOSE));
    RunEndIs(x, 4, 5, IsSpace);
    assert x[5..13] == MD_MEMO;
  }

  lemma {:induction false} TagsAreNoMarker()
    ensures !MarkerHere(BlockText(TAGS))
  {
    var x := BlockText(TAGS);
    assert x == OPEN + (TAGS + CLOSE);
    RunEndIs(x, 4, 5, IsSpace);
    assert x[5] == TAGS[0];
  }

  /** "tags: a" is commented out and never comes back, in either style. */
  lemma {:induction false} NeverTakenBack(unclosed: Str -> int)
    ensures var r := ToggleLineStyle(Ranges(), unclosed, TAGS, 0, 0);
      && r.status == CommentedOut && r.start <= r.end <= |TAGS|
      && var t2 := NoteAfter(TAGS, r);
      var back := ToggleLineStyle(Ranges(), unclosed, t2, r.selStart, r.selEnd);
      back.start <= back.end <= |t2| && NoteAfter(t2, back) != TAGS
    ensures var r := ToggleBlockStyle(Ranges(), unclosed, TAGS, 0, 0);
      && r.status == CommentedOut && r.start <= r.end <= |TAGS|
      && var t2 := NoteAfter(TAGS, r);
      var back := ToggleBlockStyle(Ranges(), unclosed, t2, r.selStart, r.selEnd);
      back.start <= back.end <= |t2| && NoteAfter(t2, back) != TAGS
  {
    assert OneLineText(TAGS);
    TagsAreNoMarker();
    TagsReadAsTags();
    LineOutcome(TAGS, unclosed);
    BlockOutcome(TAGS, unclosed);
  }

  /** "md-memo:x" is refused in both styles and stays as it is: its comment would be a marker. */
  lemma {:induction false} MarkerRefused(unclosed: Str -> int)
    ensures var r := ToggleLineStyle(Ranges(), unclosed, MEMO, 0, 0);
      r.status == Refused && r.start <= r.end <= |MEMO| && NoteAfter(MEMO, r) == MEMO
    ensures var r := ToggleBlockStyle(Ranges(), unclosed, MEMO, 0, 0);
      r.status == Refused && r.start <= r.end <= |MEMO| && NoteAfter(MEMO, r) == MEMO
  {
    assert OneLineText(MEMO);
    MemoReadsAsMarker();
    LineOutcome(MEMO, unclosed);
    BlockOutcome(MEMO, unclosed);
  }
}
