/** What the lines of a note can be, said as texts put together: a marker, a tag line, one comment and nothing else. */
module LineForms {
  import opened Text
  import opened Markers
  import opened CommentToggle

  /** "<!--" and "-->" */
  const OPENING: Str := [0x3C, 0x21, 0x2D, 0x2D]
  const ARROW: Str := [0x2D, 0x2D, 0x3E]

  // ----- one comment ---------------------------------------------------------------------------------------

  /** A comment with white space around it; one white-space unit goes with each of its ends. */
  datatype Shape = Shape(left: Str, x: Str, core: Str, y: Str, right: Str) {
    function Whole(): Str { left + (OPENING + (x + (core + (y + (ARROW + right))))) }

    /** The line without the comment. */
    function Kept(): Str { left + (core + right) }

    ghost predicate Valid() {
      && AllSpace(left) && AllSpace(right) && AllSpace(x) && AllSpace(y) && |x| <= 1 && |y| <= 1
      && (x == [] && core + y != [] ==> !IsSpace((core + y)[0]))
      && (y == [] && core != [] ==> !IsSpace(core[|core| - 1]))
      && !HasArrow(core)
    }
  }

  lemma {:induction false} ShapeParts(sh: Shape, body: Str)
    requires body == sh.Whole()
    ensures var i := |sh.left|; var j := i + 4 + |sh.x|; var k := j + |sh.core|; var e := k + |sh.y| + 3;
      && |body| == e + |sh.right| && body[..i] == sh.left && body[i..i + 4] == OPENING && body[i + 4..j] == sh.x
      && body[j..k] == sh.core && body[k..e - 3] == sh.y && body[e - 3..e] == ARROW && body[e..] == sh.right
  {
    var tail := sh.y + (ARROW + sh.right);
    assert body[|sh.left|..] == OPENING + (sh.x + (sh.core + tail));
    assert body[|sh.left| + 4..] == sh.x + (sh.core + tail);
    assert body[|sh.left| + 4 + |sh.x|..] == sh.core + tail;
    assert body[|sh.left| + 4 + |sh.x| + |sh.core|..] == tail;
    assert body[|sh.left| + 4 + |sh.x| + |sh.core| + |sh.y|..] == ARROW + sh.right;
  }

  lemma {:induction false} UnitsIn(s: Str, a: nat, b: nat, part: Str)
    requires a <= b <= |s| && s[a..b] == part
    ensures |part| == b - a && forall k :: a <= k < b ==> s[k] == part[k - a]
  {
  }

  lemma {:induction false} ShapeUnits(sh: Shape, body: Str, i: nat, j: nat, k: nat, e: nat)
    requires body == sh.Whole() && sh.Valid() && i == |sh.left| && j == i + 4 + |sh.x| && k == j + |sh.core|
    requires e == k + |sh.y| + 3
    ensures |body| == e + |sh.right| && OpensAt(body, i) && ArrowAt(body, e - 3) && body[j..k] == sh.core
    ensures (forall n :: 0 <= n < i ==> IsSpace(body[n])) && forall n :: e <= n < |body| ==> IsSpace(body[n])
    ensures IsSpace(body[i + 4]) <==> sh.x != []
    ensures sh.core != [] || sh.y != [] ==> (IsSpace(body[e - 4]) <==> sh.y != [])
  {
    ShapeParts(sh, body);
    UnitsIn(body, 0, i, sh.left);
    UnitsIn(body, i, i + 4, OPENING);
    UnitsIn(body, i + 4, j, sh.x);
    UnitsIn(body, j, k, sh.core);
    UnitsIn(body, k, e - 3, sh.y);
    UnitsIn(body, e - 3, e, ARROW);
    UnitsIn(body, e, |body|, sh.right);
    assert sh.x == [] && sh.core + sh.y != [] ==> body[i + 4] == (sh.core + sh.y)[0];
  }

  /** A line of that shape is read as one comment, with exactly these parts. */
  lemma {:induction false} ShapeMatches(sh: Shape, body: Str)
    requires body == sh.Whole() && sh.Valid()
    ensures var j := |sh.left| + 4 + |sh.x|;
      MatchOneLine(body) == OneLine(|sh.left|, j, j + |sh.core|, |body| - |sh.right|)
    ensures IsOneComment(body) && !AllSpace(body)
  {
    var i := |sh.left|;
    var j := i + 4 + |sh.x|;
    var k := j + |sh.core|;
    var e := k + |sh.y| + 3;
    ShapeUnits(sh, body, i, j, k, e);
    MatchFrom(body, i, j, k, e);
  }

  lemma {:induction false} MatchFrom(body: Str, i: nat, j: nat, k: nat, e: nat)
    requires i + 4 <= j <= i + 5 && j <= k && k + 3 <= e <= k + 4 && e <= |body|
    requires OpensAt(body, i) && ArrowAt(body, e - 3) && !HasArrow(body[j..k])
    requires (forall n :: 0 <= n < i ==> IsSpace(body[n])) && forall n :: e <= n < |body| ==> IsSpace(body[n])
    requires IsSpace(body[i + 4]) <==> j == i + 5
    requires j < e - 3 ==> (IsSpace(body[e - 4]) <==> k == e - 4)
    requires j == e - 3 ==> k == e - 3
    ensures MatchOneLine(body) == OneLine(i, j, k, e) && IsOneComment(body) && !AllSpace(body)
  {
    assert !IsSpace(body[i]) && !IsSpace(body[e - 1]);
    RunEndIs(body, 0, i, IsSpace);
    RunStartIs(body, |body|, e, IsSpace);
  }

  lemma {:induction false} CutAt(s: Str, a: nat, b: nat)
    requires a <= b <= |s|
    ensures s[a..] == s[a..b] + s[b..]
  {
  }

  /** A line that is read as one comment has that shape. */
  lemma {:induction false} MatchHasShape(body: Str) returns (sh: Shape)
    requires IsOneComment(body)
    ensures sh.Valid() && sh.Whole() == body
  {
    var m := MatchOneLine(body);
    MatchParts(body, m);
    sh := ShapeAt(body, m.indent, m.innerStart, m.innerEnd, m.closeEnd);
    ShapeMade(body, m.indent, m.innerStart, m.innerEnd, m.closeEnd, sh);
  }

  lemma {:induction false} ShapeMade(body: Str, i: nat, j: nat, k: nat, e: nat, sh: Shape)
    requires i + 4 <= j <= i + 5 && j <= k && k + 3 <= e <= k + 4 && e <= |body| && !HasArrow(body[j..k])
    requires OpensAt(body, i) && ArrowAt(body, e - 3)
    requires (forall n :: 0 <= n < i ==> IsSpace(body[n])) && forall n :: e <= n < |body| ==> IsSpace(body[n])
    requires (j == i + 5 <==> IsSpace(body[i + 4])) && (k == e - 4 ==> IsSpace(body[e - 4]))
    requires j < k == e - 3 ==> !IsSpace(body[e - 4])
    requires sh == ShapeAt(body, i, j, k, e)
    ensures sh.Valid() && sh.Whole() == body
  {
    assert sh.Whole() == body by { MatchWhole(body, i, j, k, e, sh); }
    assert sh.Valid() by { MatchValid(body, i, j, k, e, sh); }
  }

  function ShapeAt(body: Str, i: nat, j: nat, k: nat, e: nat): Shape
    requires i + 4 <= j <= k && k + 3 <= e <= |body|
  {
    Shape(body[..i], body[i + 4..j], body[j..k], body[k..e - 3], body[e..])
  }

  lemma {:induction false} MatchWhole(body: Str, i: nat, j: nat, k: nat, e: nat, sh: Shape)
    requires i + 4 <= j <= k && k + 3 <= e <= |body| && OpensAt(body, i) && ArrowAt(body, e - 3)
    requires sh == ShapeAt(body, i, j, k, e)
    ensures sh.Whole() == body
  {
    BackOf(body, k, e);
    FrontOf(body, i, j);
    CutAt(body, j, k);
  }

  lemma {:induction false} BackOf(s: Str, k: nat, e: nat)
    requires k + 3 <= e <= |s| && ArrowAt(s, e - 3)
    ensures s[k..] == s[k..e - 3] + (ARROW + s[e..])
  {
    CutAt(s, e - 3, e);
    assert s[e - 3..e] == ARROW;
    CutAt(s, k, e - 3);
  }

  lemma {:induction false} FrontOf(s: Str, i: nat, j: nat)
    requires i + 4 <= j <= |s| && OpensAt(s, i)
    ensures s == s[..i] + (OPENING + (s[i + 4..j] + s[j..]))
  {
    CutAt(s, i + 4, j);
    CutAt(s, i, i + 4);
    assert s[i..i + 4] == OPENING;
    assert s == s[..i] + s[i..];
  }

  lemma {:induction false} MatchParts(body: Str, m: CommentToggle.OneLine)
    requires m == MatchOneLine(body) && IsOneComment(body)
    ensures var i, j, k, e := m.indent, m.innerStart, m.innerEnd, m.closeEnd;
      && i + 4 <= j <= i + 5 && j <= k && k + 3 <= e <= k + 4 && e <= |body| && !HasArrow(body[j..k])
      && (forall n :: 0 <= n < i ==> IsSpace(body[n])) && (forall n :: e <= n < |body| ==> IsSpace(body[n]))
      && (j == i + 5 <==> IsSpace(body[i + 4])) && (k == e - 4 ==> IsSpace(body[e - 4]))
      && (j < k == e - 3 ==> !IsSpace(body[e - 4]))
  {
  }

  lemma {:induction false} MatchValid(body: Str, i: nat, j: nat, k: nat, e: nat, sh: Shape)
    requires i + 4 <= j <= i + 5 && j <= k && k + 3 <= e <= k + 4 && e <= |body| && !HasArrow(body[j..k])
    requires (forall n :: 0 <= n < i ==> IsSpace(body[n])) && forall n :: e <= n < |body| ==> IsSpace(body[n])
    requires (j == i + 5 <==> IsSpace(body[i + 4])) && (k == e - 4 ==> IsSpace(body[e - 4]))
    requires j < k == e - 3 ==> !IsSpace(body[e - 4])
    requires sh == ShapeAt(body, i, j, k, e)
    ensures sh.Valid()
  {
    assert AllSpace(sh.left) && AllSpace(sh.right) && !HasArrow(sh.core);
    assert sh.x != [] ==> sh.x[0] == body[i + 4];
    assert sh.y != [] ==> sh.y[0] == body[e - 4];
    FirstBehind(body, j, k, e - 3);
    LastOf(body, j, k);
  }

  lemma {:induction false} FirstBehind(s: Str, a: nat, b: nat, c: nat)
    requires a <= b <= c <= |s|
    ensures s[a..b] + s[b..c] != [] ==> (s[a..b] + s[b..c])[0] == s[a]
    ensures s[a..b] + s[b..c] == [] <==> a == c
  {
    SliceJoin(s, a, b, c);
  }

  lemma {:induction false} LastOf(s: Str, a: nat, b: nat)
    requires a <= b <= |s|
    ensures s[a..b] != [] ==> s[a..b][|s[a..b]| - 1] == s[b - 1]
  {
  }

  // ----- tag lines -----------------------------------------------------------------------------------------

  predicate IsLetter(c: CodeUnit, upper: CodeUnit) { c == upper || c == upper + 0x20 }

  /** "tag" or "tags" in any case */
  predicate TagWord(key: Str) {
    (|key| == 3 || (|key| == 4 && IsLetter(key[3], 0x53))) &&
    IsLetter(key[0], 0x54) && IsLetter(key[1], 0x41) && IsLetter(key[2], 0x47)
  }

  /** One comment that says "tag:" or "tags:", with nothing but blanks around it. */
  datatype TagShape = TagShape(left: Str, before: Str, key: Str, behind: Str, rest: Str, right: Str) {
    function Inner(): Str { before + (key + (behind + ([0x3A] + rest))) }

    function Whole(): Str { left + (OPENING + (Inner() + (ARROW + right))) }

    ghost predicate Valid() {
      && (forall k :: 0 <= k < |left| ==> left[k] == 0x09 || left[k] == 0x20)
      && (forall k :: 0 <= k < |right| ==> right[k] == 0x09 || right[k] == 0x20 || right[k] == 0x0D)
      && AllSpace(before) && TagWord(key) && AllSpace(behind) && !HasArrow(Inner()) && !HasOpen(Inner())
    }
  }

  lemma {:induction false} LowerTag(key: Str)
    ensures TagWord(key) <==> LowerAll(key) == TAG_KEY || LowerAll(key) == TAGS_KEY
  {
    var low := LowerAll(key);
    assert forall k :: 0 <= k < |key| ==> low[k] == Lower(key[k]);
    if TagWord(key) {
      if |key| == 3 { assert low == TAG_KEY; } else { assert low == TAGS_KEY; }
    }
  }

  lemma {:induction false} KeyOfInner(sh: TagShape, inner: Str)
    requires sh.Valid() && inner == sh.Inner()
    ensures var c := FirstColon(inner);
      c == |sh.before| + |sh.key| + |sh.behind| < |inner| && Trim(inner[..c]) == sh.key
  {
    var front := sh.before + (sh.key + sh.behind);
    assert inner == front + ([0x3A] + sh.rest) by {
      Associate(sh.key, sh.behind, [0x3A] + sh.rest);
      Associate(sh.before, sh.key + sh.behind, [0x3A] + sh.rest);
    }
    assert forall k :: 0 <= k < |front| ==> front[k] != COLON by { NoColonInFront(sh, front); }
    ColonBehind(front, sh.rest, inner);
    assert Trim(front) == sh.key by {
      TrimCore(sh.before, sh.key, sh.behind);
      Associate(sh.before, sh.key, sh.behind);
    }
  }

  lemma {:induction false} ColonBehind(front: Str, rest: Str, inner: Str)
    requires inner == front + ([0x3A] + rest) && forall k :: 0 <= k < |front| ==> front[k] != COLON
    ensures FirstColon(inner) == |front| < |inner| && inner[..|front|] == front
  {
    forall k | 0 <= k < |front| ensures inner[k] != COLON { assert inner[k] == front[k]; }
    assert inner[|front|] == COLON;
    RunEndIs(inner, 0, |front|, c => c != COLON);
  }

  lemma {:induction false} NoColonInFront(sh: TagShape, front: Str)
    requires sh.Valid() && front == sh.before + (sh.key + sh.behind)
    ensures forall k :: 0 <= k < |front| ==> front[k] != COLON
  {
  }

  /** A line of that shape is a tag line. */
  lemma {:induction false} TagShapeIs(sh: TagShape, line: Str)
    requires sh.Valid() && line == sh.Whole()
    ensures IsTagLine(line)
  {
    var inner := sh.Inner();
    var mid := OPENING + (inner + ARROW);
    assert line == sh.left + (mid + sh.right) by {
      Associate(inner, ARROW, sh.right);
      Associate(OPENING, inner + ARROW, sh.right);
    }
    assert |mid| == |inner| + 7 && mid[4..|mid| - 3] == inner && OpensAt(mid, 0) && ArrowAt(mid, |mid| - 3) by {
      MidIs(mid, inner);
    }
    assert FirstColon(inner) < |inner| && Trim(inner[..FirstColon(inner)]) == sh.key by { KeyOfInner(sh, inner); }
    LowerTag(sh.key);
    TagLineOf(line, sh.left, mid, sh.right, inner);
  }

  lemma {:induction false} TagLineOf(line: Str, left: Str, mid: Str, right: Str, inner: Str)
    requires line == left + (mid + right) && |mid| >= 7 && mid[4..|mid| - 3] == inner
    requires OpensAt(mid, 0) && ArrowAt(mid, |mid| - 3)
    requires (forall k :: 0 <= k < |left| ==> TabOrSpace(left[k])) &&
      forall k :: 0 <= k < |right| ==> TabSpaceOrReturn(right[k])
    requires !HasArrow(inner) && !HasOpen(inner) && FirstColon(inner) < |inner|
    requires var key := Trim(inner[..FirstColon(inner)]); LowerAll(key) == TAGS_KEY || LowerAll(key) == TAG_KEY
    ensures IsTagLine(line)
  {
    TagBounds(left, mid, right, line);
    TagLineFrom(line, |left|, |left| + |mid|, mid, inner);
  }

  lemma {:induction false} MidIs(mid: Str, inner: Str)
    requires mid == OPENING + (inner + ARROW)
    ensures |mid| == |inner| + 7 && mid[4..|mid| - 3] == inner && OpensAt(mid, 0) && ArrowAt(mid, |mid| - 3)
  {
    MiddlePart(OPENING, inner, ARROW);
    UnitsIn(mid, |mid| - 3, |mid|, ARROW);
  }

  lemma {:induction false} TagLineFrom(line: Str, b: nat, e: nat, s: Str, inner: Str)
    requires b == RunEnd(line, 0, TabOrSpace) && e == RunStart(line, |line|, TabSpaceOrReturn) && b + 7 <= e
    requires s == line[b..e] && OpensAt(s, 0) && ArrowAt(s, |s| - 3) && inner == s[4..|s| - 3]
    requires !HasArrow(inner) && !HasOpen(inner) && FirstColon(inner) < |inner|
    requires var key := Trim(inner[..FirstColon(inner)]); LowerAll(key) == TAGS_KEY || LowerAll(key) == TAG_KEY
    ensures IsTagLine(line)
  {
  }

  lemma {:induction false} TagBounds(left: Str, mid: Str, right: Str, line: Str)
    requires line == left + (mid + right) && mid != [] && mid[0] == LESS && mid[|mid| - 1] == GREATER
    requires (forall k :: 0 <= k < |left| ==> TabOrSpace(left[k])) &&
      forall k :: 0 <= k < |right| ==> TabSpaceOrReturn(right[k])
    ensures RunEnd(line, 0, TabOrSpace) == |left| && RunStart(line, |line|, TabSpaceOrReturn) == |left| + |mid|
    ensures line[|left|..|left| + |mid|] == mid
  {
    var e := |left| + |mid|;
    assert forall k :: 0 <= k < |left| ==> line[k] == left[k];
    assert forall k :: e <= k < |line| ==> line[k] == right[k - e];
    assert line[|left|] == mid[0] && line[e - 1] == mid[|mid| - 1];
    RunEndIs(line, 0, |left|, TabOrSpace);
    RunStartIs(line, |line|, e, TabSpaceOrReturn);
  }

  /** And every tag line has it. */
  lemma {:induction false} TagHasShape(line: Str) returns (sh: TagShape)
    requires IsTagLine(line)
    ensures sh.Valid() && sh.Whole() == line
  {
    var b, e := RunEnd(line, 0, TabOrSpace), RunStart(line, |line|, TabSpaceOrReturn);
    TagParts(line, b, e);
    sh := TagMade(line, b, e, line[b + 4..e - 3]);
  }

  lemma {:induction false} TagMade(line: Str, b: nat, e: nat, inner: Str) returns (sh: TagShape)
    requires b + 7 <= e <= |line| && OpensAt(line, b) && ArrowAt(line, e - 3) && inner == line[b + 4..e - 3]
    requires forall k :: 0 <= k < b ==> TabOrSpace(line[k])
    requires forall k :: e <= k < |line| ==> TabSpaceOrReturn(line[k])
    requires !HasArrow(inner) && !HasOpen(inner) && FirstColon(inner) < |inner|
    requires var key := LowerAll(Trim(inner[..FirstColon(inner)])); key == TAG_KEY || key == TAGS_KEY
    ensures sh.Valid() && sh.Whole() == line
  {
    var left, right := line[..b], line[e..];
    assert line == left + (OPENING + (inner + (ARROW + right))) by { TagWhole(line, b, e); }
    var before, key, behind, rest := SplitInner(inner);
    sh := TagShape(left, before, key, behind, rest, right);
    TagFrom(line, inner, sh);
  }

  lemma {:induction false} TagFrom(line: Str, inner: Str, sh: TagShape)
    requires line == sh.left + (OPENING + (inner + (ARROW + sh.right))) && inner == sh.Inner()
    requires (forall k :: 0 <= k < |sh.left| ==> TabOrSpace(sh.left[k])) &&
      forall k :: 0 <= k < |sh.right| ==> TabSpaceOrReturn(sh.right[k])
    requires AllSpace(sh.before) && TagWord(sh.key) && AllSpace(sh.behind) && !HasArrow(inner) && !HasOpen(inner)
    ensures sh.Valid() && sh.Whole() == line
  {
  }

  lemma {:induction false} TagParts(line: Str, b: nat, e: nat)
    requires IsTagLine(line) && b == RunEnd(line, 0, TabOrSpace) && e == RunStart(line, |line|, TabSpaceOrReturn)
    ensures b + 7 <= e <= |line| && OpensAt(line, b) && ArrowAt(line, e - 3)
    ensures var inner := line[b + 4..e - 3];
      && !HasArrow(inner) && !HasOpen(inner) && FirstColon(inner) < |inner|
      && var key := LowerAll(Trim(inner[..FirstColon(inner)])); key == TAG_KEY || key == TAGS_KEY
  {
    assert b + 7 <= e;
    InnerOf(line, b, e);
  }

  lemma {:induction false} InnerOf(line: Str, b: nat, e: nat)
    requires b + 7 <= e <= |line|
    ensures line[b..e][4..|line[b..e]| - 3] == line[b + 4..e - 3]
    ensures OpensAt(line[b..e], 0) == OpensAt(line, b) && ArrowAt(line[b..e], |line[b..e]| - 3) == ArrowAt(line, e - 3)
  {
    SliceOfSlice(line, b, e, 4, e - b - 3);
    assert forall k :: 0 <= k < e - b ==> line[b..e][k] == line[b + k];
  }

  lemma {:induction false} TagWhole(line: Str, b: nat, e: nat)
    requires b + 7 <= e <= |line| && OpensAt(line, b) && ArrowAt(line, e - 3)
    ensures line == line[..b] + (OPENING + (line[b + 4..e - 3] + (ARROW + line[e..])))
  {
    BackOf(line, b + 4, e);
    FrontOf(line, b, b + 4);
    assert line[b + 4..b + 4] == [] && [] + line[b + 4..] == line[b + 4..];
  }

  lemma {:induction false} SplitInner(inner: Str) returns (before: Str, key: Str, behind: Str, rest: Str)
    requires var c := FirstColon(inner);
      c < |inner| && (LowerAll(Trim(inner[..c])) == TAG_KEY || LowerAll(Trim(inner[..c])) == TAGS_KEY)
    ensures inner == before + (key + (behind + ([0x3A] + rest))) && AllSpace(before) && TagWord(key) && AllSpace(behind)
  {
    var c := FirstColon(inner);
    var i, j := RunEnd(inner[..c], 0, IsSpace), RunStart(inner[..c], c, IsSpace);
    key := Trim(inner[..c]);
    LowerTag(key);
    assert i < j && key == inner[..c][i..j];
    before, behind, rest := inner[..c][..i], inner[..c][j..], inner[c + 1..];
    InnerParts(inner, i, j, c);
  }

  lemma {:induction false} InnerParts(inner: Str, i: nat, j: nat, c: nat)
    requires i <= j <= c < |inner| && inner[c] == 0x3A
    ensures inner == inner[..c][..i] + (inner[..c][i..j] + (inner[..c][j..] + ([0x3A] + inner[c + 1..])))
  {
    var front, t1, t2, t3 := inner[..c], inner[i..], inner[j..], inner[c..];
    assert front[..i] == inner[..i] && front[i..j] == inner[i..j] && front[j..] == inner[j..c];
    assert t3 == [0x3A] + inner[c + 1..];
    assert t2 == inner[j..c] + t3 by { CutAt(inner, j, c); }
    assert t1 == inner[i..j] + t2 by { CutAt(inner, i, j); }
    assert inner == inner[..i] + t1;
  }

  // ----- markers -------------------------------------------------------------------------------------------

  /** "<!--", white space, one optional slash, "md-memo:" */
  ghost predicate MarkerText(x: Str) {
    exists space, slash, rest :: AllSpace(space) && (slash == [] || slash == [0x2F]) &&
      x == OPENING + (space + (slash + ([0x6D, 0x64, 0x2D, 0x6D, 0x65, 0x6D, 0x6F, 0x3A] + rest)))
  }

  lemma {:induction false} MarkerIsText(x: Str)
    ensures MarkerHere(x) <==> MarkerText(x)
  {
    if MarkerHere(x) { MarkerHasText(x); }
    if MarkerText(x) {
      var space, slash, rest :| AllSpace(space) && (slash == [] || slash == [0x2F]) &&
        x == OPENING + (space + (slash + ([0x6D, 0x64, 0x2D, 0x6D, 0x65, 0x6D, 0x6F, 0x3A] + rest)));
      TextIsMarker(x, space, slash, rest);
    }
  }

  lemma {:induction false} MarkerHasText(x: Str)
    requires MarkerHere(x)
    ensures MarkerText(x)
  {
    var k, m := RunEnd(x, 4, IsSpace), NameIndex(x);
    MarkerCuts(x, k, m);
    assert AllSpace(x[4..k]) && (x[k..m] == [] || x[k..m] == [0x2F]);
    MarkerTextFrom(x, x[4..k], x[k..m], x[m + 8..]);
  }

  lemma {:induction false} MarkerCuts(x: Str, k: nat, m: nat)
    requires 4 <= k <= m && m + 8 <= |x| && OpensAt(x, 0) && x[m..m + 8] == MD_MEMO
    ensures x == OPENING + (x[4..k] + (x[k..m] + (MD_MEMO + x[m + 8..])))
  {
    var t1, t2, t3 := x[4..], x[k..], x[m..];
    assert t3 == MD_MEMO + x[m + 8..] by { CutAt(x, m, m + 8); }
    assert t2 == x[k..m] + t3 by { CutAt(x, k, m); }
    assert t1 == x[4..k] + t2 by { CutAt(x, 4, k); }
    assert x == x[..4] + t1 && x[..4] == OPENING;
  }

  lemma {:induction false} MarkerTextFrom(x: Str, space: Str, slash: Str, rest: Str)
    requires AllSpace(space) && (slash == [] || slash == [0x2F]) && x == OPENING + (space + (slash + (MD_MEMO + rest)))
    ensures MarkerText(x)
  {
  }

  lemma {:induction false} TextIsMarker(x: Str, space: Str, slash: Str, rest: Str)
    requires AllSpace(space) && (slash == [] || slash == [0x2F]) && x == OPENING + (space + (slash + (MD_MEMO + rest)))
    ensures MarkerHere(x)
  {
    var k, m := 4 + |space|, 4 + |space| + |slash|;
    assert x[..4] == OPENING;
    UnitsIn(x, 0, 4, OPENING);
    assert x[4..k] == space;
    UnitsIn(x, 4, k, space);
    assert x[m..m + 8] == MD_MEMO;
    UnitsIn(x, m, m + 8, MD_MEMO);
    assert x[k..m] == slash;
    UnitsIn(x, k, m, slash);
    assert x[m] == MD_MEMO[0];
    RunEndIs(x, 4, k, IsSpace);
    assert NameIndex(x) == m;
  }
}
