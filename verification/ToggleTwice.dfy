/** The second toggle: which lines it sees, and that the structural check passes again. */
module ToggleTwice {
  import opened Text
  import opened Markers
  import opened EditCalculus
  import opened LineCalculus
  import opened CommentToggle
  import opened CommentMarkers
  import opened ToggleRoundTrip

  // ----- comments carried through the edits ----------------------------------------------------------------

  function Moved(r: Range, edits: seq<Edit>): Range {
    Range(MapPos(r.start, edits, Never), MapPos(r.end, edits, Always))
  }

  lemma {:induction false} KeptMembers(ranges: seq<Range>, edits: seq<Edit>)
    ensures |Kept(ranges, [], edits)| == |ranges|
    ensures forall i :: 0 <= i < |ranges| ==> Kept(ranges, [], edits)[i] == Moved(ranges[i], edits)
  {
    if ranges != [] {
      KeptMembers(ranges[1..], edits);
    }
  }

  lemma {:induction false} InsertKeeps(r: Range, rs: seq<Range>)
    ensures multiset(InsertByStart(r, rs)) == multiset{r} + multiset(rs)
  {
    if rs == [] || r.start <= rs[0].start {
    } else {
      InsertKeeps(r, rs[1..]);
      assert rs == [rs[0]] + rs[1..];
    }
  }

  lemma {:induction false} SortKeeps(rs: seq<Range>)
    ensures multiset(SortByStart(rs)) == multiset(rs)
  {
    if rs != [] {
      SortKeeps(rs[1..]);
      InsertKeeps(rs[0], SortByStart(rs[1..]));
      assert rs == [rs[0]] + rs[1..];
    }
  }

  /** A comment over several lines stays one, and only such comments come from one. */
  lemma {:induction false} SpansLinesMoves(t: Str, edits: seq<Edit>, r: Range)
    requires Ordered(edits, 0, |t|) && Insertions(edits, 0) && InsertsNoBreak(edits)
    requires 0 <= r.start < r.end <= |t|
    ensures SpansLines(t, r) <==> SpansLines(Apply(t, 0, |t|, edits), Moved(r, edits))
  {
    var t2 := Apply(t, 0, |t|, edits);
    if SpansLines(t, r) {
      var k :| 0 <= k < |t| && r.start <= k < r.end && t[k] == LF;
      InsertionsDeleteNothing(edits, 0, k);
      SurvivorsMove(t, 0, |t|, edits, k);
      MapPosMonotone(edits, 0, |t|, r.start, k, Never, Always);
      InsertionsStretch(edits, 0, k, r.end, Always, Always);
      assert t2[MapPos(k, edits, Always)] == LF;
    }
    if SpansLines(t2, Moved(r, edits)) {
      var k :| 0 <= k < |t2| && MapPos(r.start, edits, Never) <= k < MapPos(r.end, edits, Always) && t2[k] == LF;
      var p := BreakOrigin(t, 0, |t|, edits, k);
      if p < r.start {
        InsertionsStretch(edits, 0, p, r.start, Always, Never);
      } else if p >= r.end {
        MapPosMonotone(edits, 0, |t|, r.end, p, Always, Always);
      }
    }
  }

  lemma {:induction false} InsertionsDeleteNothing(edits: seq<Edit>, lo: nat, p: nat)
    requires Insertions(edits, lo)
    ensures !Deleted(p, edits)
  {
    if edits != [] {
      InsertionsDeleteNothing(edits[1..], edits[0].pos + 1, p);
      forall i | 0 <= i < |edits| ensures !(edits[i].pos <= p < edits[i].pos + edits[i].del) {
        if i > 0 { assert edits[1..][i - 1] == edits[i]; }
      }
    }
  }

  /** Both ends of a stretch [ls, le] move by the same amount, whichever side they take. */
  ghost predicate Rigid(edits: seq<Edit>, ls: nat, le: nat, ls2: nat, le2: nat) {
    && MapPos(ls, edits, Never) == MapPos(ls, edits, Always) == ls2
    && MapPos(le, edits, Never) == MapPos(le, edits, Always) == le2
  }

  /** A comment overlaps an untouched line after the edits exactly when it did before. */
  lemma {:induction false} OverlapMoves(edits: seq<Edit>, r: Range, ls: nat, le: nat, ls2: nat, le2: nat)
    requires Insertions(edits, 0) && 0 <= r.start < r.end && Rigid(edits, ls, le, ls2, le2)
    ensures r.start < le && r.end > ls <==> Moved(r, edits).start < le2 && Moved(r, edits).end > ls2
  {
    if r.start < le {
      InsertionsStretch(edits, 0, r.start, le, Never, Never);
    } else {
      InsertionsStretch(edits, 0, le, r.start, Never, Never);
    }
    if ls < r.end {
      InsertionsStretch(edits, 0, ls, r.end, Always, Always);
    } else {
      InsertionsStretch(edits, 0, r.end, ls, Always, Always);
    }
  }

  /** The comments of the edited text: the old ones where they went, and new ones inside one line. */
  ghost predicate MovedAndNew(t2: Str, ranges: seq<Range>, edits: seq<Edit>, ranges2: seq<Range>) {
    && (forall i :: 0 <= i < |ranges| ==> Moved(ranges[i], edits) in ranges2)
    && (forall x :: x in ranges2 ==>
      (!SpansLines(t2, x) || exists i :: 0 <= i < |ranges| && x == Moved(ranges[i], edits)))
  }

  lemma {:induction false} LongCommentsMove(t: Str, ranges: seq<Range>, edits: seq<Edit>, ranges2: seq<Range>,
        ls: nat, le: nat, ls2: nat, le2: nat)
    requires Ordered(edits, 0, |t|) && Insertions(edits, 0) && InsertsNoBreak(edits)
    requires Comments(t, ranges) && MovedAndNew(Apply(t, 0, |t|, edits), ranges, edits, ranges2)
    requires Rigid(edits, ls, le, ls2, le2)
    ensures InLongComment(t, ranges, ls, le) <==> InLongComment(Apply(t, 0, |t|, edits), ranges2, ls2, le2)
  {
    var t2 := Apply(t, 0, |t|, edits);
    if InLongComment(t, ranges, ls, le) {
      var i :| 0 <= i < |ranges| && SpansLines(t, ranges[i]) && ranges[i].start < le && ranges[i].end > ls;
      SpansLinesMoves(t, edits, ranges[i]);
      OverlapMoves(edits, ranges[i], ls, le, ls2, le2);
      var j :| 0 <= j < |ranges2| && ranges2[j] == Moved(ranges[i], edits);
    }
    if InLongComment(t2, ranges2, ls2, le2) {
      var j :| 0 <= j < |ranges2| && SpansLines(t2, ranges2[j]) && ranges2[j].start < le2 && ranges2[j].end > ls2;
      assert ranges2[j] in ranges2;
      var i :| 0 <= i < |ranges| && ranges2[j] == Moved(ranges[i], edits);
      SpansLinesMoves(t, edits, ranges[i]);
      OverlapMoves(edits, ranges[i], ls, le, ls2, le2);
    }
  }

  // ----- the text between the two toggles ------------------------------------------------------------------

  /** A first toggle that comments lines out: the region, its lines, the edits, and the text they give. */
  datatype First = First(t: Str, start: nat, end: nat, raws: seq<Str>, lines: seq<Line>, edits: seq<Edit>,
        raws2: seq<Str>, t2: Str) {
    ghost predicate Region() {
      && start <= end <= |t| && raws != [] && t[start..end] == JoinLines(raws)
      && Fits(lines, raws, start) && edits == EditsOf(lines, true)
      && raws2 == LinesAfter(lines, raws, start, true)
      && (forall k :: 0 <= k < |raws| ==> NoBreak(raws[k]))
    }

    ghost predicate Edits() {
      && start <= end <= |t| && Ordered(edits, start, end) && Ordered(edits, 0, |t|)
      && Insertions(edits, start) && Insertions(edits, 0) && InsertsNoBreak(edits)
      && t2 == Apply(t, 0, |t|, edits) && t2 == Edited(t, start, end, edits)
    }

    /** Where the region ends in the new text. */
    function End2(): nat
      requires raws2 != []
    {
      start + |JoinLines(raws2)|
    }

    /** The three parts of the new text. */
    ghost predicate Parts() {
      raws2 != [] && start <= end <= |t| && t2 == t[..start] + JoinLines(raws2) + t[end..]
    }

    ghost predicate Valid() {
      Region() && Edits() && Parts()
    }
  }

  lemma {:induction false} FirstRegion(t: Str, kindAt: KindAt, start: nat, end: nat) returns (f: First)
    requires start <= end <= |t| && Sound(kindAt)
    ensures f.t == t && f.start == start && f.end == end
    ensures f.raws == SplitLines(t[start..end]) && f.lines == LinesFrom(kindAt, start, f.raws)
    ensures f.Region() && Ordered(f.edits, start, end) && f.t2 == Edited(t, start, end, f.edits)
    ensures Apply(t, start, end, f.edits) == JoinLines(f.raws2)
    ensures Insertions(f.edits, start) && InsertsNoBreak(f.edits)
  {
    var raws := SplitLines(t[start..end]);
    var lines := LinesFrom(kindAt, start, raws);
    JoinSplit(t[start..end]);
    LinesFit(kindAt, start, raws);
    var edits := EditsOf(lines, true);
    ApplyLines(t, lines, raws, start, end, true);
    f := First(t, start, end, raws, lines, edits, LinesAfter(lines, raws, start, true), Edited(t, start, end, edits));
  }

  lemma {:induction false} FirstToggle(t: Str, kindAt: KindAt, start: nat, end: nat) returns (f: First)
    requires start <= end <= |t| && Sound(kindAt)
    ensures f.t == t && f.start == start && f.end == end
    ensures f.raws == SplitLines(t[start..end]) && f.lines == LinesFrom(kindAt, start, f.raws)
    ensures f.Valid()
  {
    f := FirstRegion(t, kindAt, start, end);
    EditedWhole(t, start, end, f.edits);
    InsertionsWeaken(f.edits, start, 0);
  }

  lemma {:induction false} ThreeSlices(a: Str, b: Str, c: Str)
    ensures (a + b + c)[..|a|] == a && (a + b + c)[|a|..|a| + |b|] == b && (a + b + c)[|a| + |b|..] == c
  {
  }

  /** Where line k of the region starts, before and after. */
  ghost function At1(f: First, k: nat): nat
    requires k <= |f.raws|
  {
    f.start + Offset(f.raws, k)
  }

  ghost function At2(f: First, k: nat): nat
    requires k <= |f.raws2|
  {
    f.start + Offset(f.raws2, k)
  }

  lemma {:induction false} MapPosInLine(f: First, k: nat, p: nat, after: After)
    requires f.Region() && k < |f.raws| && At1(f, k) <= p <= At1(f, k) + |f.raws[k]|
    ensures MapPos(p, f.edits, after) == MapPos(p, EditsOfLine(f.lines[k], true), after) + At2(f, k) - At1(f, k)
  {
    PairsByLine(f.lines, f.raws, f.start, true);
    PairsFlat(f.lines, true);
    PairsAt(f.lines, true, k);
    MapPosByLine(f.raws, f.start, Pairs(f.lines, true), k, p, after);
  }

  /** The text of line k after the toggle. */
  lemma {:induction false} LineText(f: First, k: nat)
    requires f.Region() && k < |f.raws|
    ensures LineFits(f.lines[k], f.raws[k], At1(f, k))
    ensures f.lines[k].kind.Plain? ==> f.raws2[k] == CommentText(f.lines[k].body) + f.raws[k][|f.lines[k].body|..]
    ensures !f.lines[k].kind.Plain? ==> f.raws2[k] == f.raws[k]
  {
    var l, raw, es := f.lines[k], f.raws[k], EditsOfLine(f.lines[k], true);
    LinesAfterAt(f.lines, f.raws, f.start, true, k);
    if l.kind.Plain? {
      assert es == Comment(l);
      CommentLine(l, raw, At1(f, k));
    } else {
      assert es == [];
    }
  }

  /** Unit j of line k of the region, in the new text. */
  lemma {:induction false} LineUnit(f: First, k: nat, j: nat)
    requires f.Parts() && k < |f.raws2| && j < |f.raws2[k]|
    ensures At2(f, k) + |f.raws2[k]| <= |f.t2|
    ensures f.t2[At2(f, k) + j] == f.raws2[k][j]
  {
    JoinedUnit(f.raws2, k, j);
    MiddleUnit(f.t[..f.start], JoinLines(f.raws2), f.t[f.end..], Offset(f.raws2, k) + j);
  }

  lemma {:induction false} MiddleUnit(a: Str, b: Str, c: Str, j: nat)
    requires j < |b|
    ensures (a + b + c)[|a| + j] == b[j]
  {
  }

  // ----- the comments of the new text ----------------------------------------------------------------------

  /** The comment written on plain line k spans exactly the line's text from its indentation on. */
  lemma {:induction false} AddedSpanAt(f: First, k: nat)
    requires f.Region() && k < |f.lines| && f.lines[k].kind.Plain?
    ensures AddedSpan(f.lines[k], f.edits)
         == Range(At2(f, k) + Indent(f.lines[k].body), At2(f, k) + |f.lines[k].body| + 9)
  {
    var l := f.lines[k];
    FitsAt(f.lines, f.raws, f.start, k);
    var p := l.ls + Indent(l.body);
    MapPosInLine(f, k, p, Never);
    FrontStays(l);
  }

  lemma {:induction false} FrontStays(l: Line)
    requires Indent(l.body) < |l.body|
    ensures MapPos(l.ls + Indent(l.body), Comment(l), Never) == l.ls + Indent(l.body)
  {
    UntouchedBefore(Comment(l), l.ls + Indent(l.body), l.ls + Indent(l.body), Never);
  }

  lemma {:induction false} AddedMember(lines: seq<Line>, edits: seq<Edit>, k: nat)
    requires k < |lines| && lines[k].kind.Plain?
    ensures AddedSpan(lines[k], edits) in Added(lines, edits)
  {
    if k > 0 { AddedMember(lines[1..], edits, k - 1); }
  }

  lemma {:induction false} AddedOrigin(lines: seq<Line>, edits: seq<Edit>, x: Range) returns (k: nat)
    requires x in Added(lines, edits)
    ensures k < |lines| && lines[k].kind.Plain? && x == AddedSpan(lines[k], edits)
  {
    if lines[0].kind.Plain? && x == AddedSpan(lines[0], edits) {
      k := 0;
    } else {
      var j := AddedOrigin(lines[1..], edits, x);
      k := j + 1;
    }
  }

  lemma {:induction false} NewSpanOnOneLine(f: First, k: nat)
    requires f.Valid() && k < |f.lines| && f.lines[k].kind.Plain?
    ensures !SpansLines(f.t2, AddedSpan(f.lines[k], f.edits))
  {
    var l := f.lines[k];
    AddedSpanAt(f, k);
    LineText(f, k);
    CommentTextNoBreak(l.body, f.raws[k]);
    forall i | 0 <= i < |f.t2| && At2(f, k) <= i < At2(f, k) + |l.body| + 9 ensures f.t2[i] != LF {
      var j := i - At2(f, k);
      CommentTextUnits(l.body, 0);
      LineUnit(f, k, j);
      assert f.raws2[k][j] == CommentText(l.body)[j];
    }
  }

  lemma {:induction false} CommentTextNoBreak(body: Str, raw: Str)
    requires body == WithoutReturn(raw) && NoBreak(raw)
    ensures NoBreak(CommentText(body))
  {
    var c := CommentText(body);
    assert NoBreak(body);
    assert NoBreak(body[..Indent(body)]) && NoBreak(body[Indent(body)..]);
  }

  /** After a passed check, the comments of the new text are the old ones, moved, and the new ones. */
  lemma {:induction false} CommentsAfter(f: First, ranges: seq<Range>, ranges2: seq<Range>)
    requires f.Valid() && ranges2 == SortByStart(Kept(ranges, [], f.edits) + Added(f.lines, f.edits))
    ensures MovedAndNew(f.t2, ranges, f.edits, ranges2)
    ensures forall k :: 0 <= k < |f.lines| && f.lines[k].kind.Plain? ==> AddedSpan(f.lines[k], f.edits) in ranges2
  {
    var kept, added := Kept(ranges, [], f.edits), Added(f.lines, f.edits);
    SortKeeps(kept + added);
    KeptMembers(ranges, f.edits);
    SameMembers(ranges2, kept, added);
    forall k | 0 <= k < |f.lines| && f.lines[k].kind.Plain? ensures AddedSpan(f.lines[k], f.edits) in ranges2 {
      AddedMember(f.lines, f.edits, k);
    }
    forall x | x in ranges2
      ensures !SpansLines(f.t2, x) || exists i :: 0 <= i < |ranges| && x == Moved(ranges[i], f.edits)
    {
      if x in added {
        var k := AddedOrigin(f.lines, f.edits, x);
        NewSpanOnOneLine(f, k);
      } else {
        var i :| 0 <= i < |kept| && kept[i] == x;
        assert x == Moved(ranges[i], f.edits);
      }
    }
    forall i | 0 <= i < |ranges| ensures Moved(ranges[i], f.edits) in ranges2 {
      assert kept[i] in kept;
    }
  }

  lemma {:induction false} SameMembers(q: seq<Range>, a: seq<Range>, b: seq<Range>)
    requires multiset(q) == multiset(a + b)
    ensures forall x :: x in q <==> x in a || x in b
  {
    forall x ensures x in q <==> x in a || x in b {
      assert x in q <==> x in multiset(q);
      assert x in a + b <==> x in multiset(a + b);
    }
  }

  // ----- kinds of the lines of the new text ----------------------------------------------------------------

  /** A comment of one line leaves no room on the line for another that ends in a "-->" somewhere else. */
  lemma {:induction false} SpanNotInLong(t2: Str, ranges2: seq<Range>, ls2: nat, front: nat, le2: nat)
    requires Comments(t2, ranges2) && Range(front, le2) in ranges2 && !SpansLines(t2, Range(front, le2))
    requires forall u :: ls2 <= u < front && u < |t2| ==> t2[u] != GREATER
    ensures !InLongComment(t2, ranges2, ls2, le2)
  {
    var i :| 0 <= i < |ranges2| && ranges2[i] == Range(front, le2);
    forall j | 0 <= j < |ranges2| && SpansLines(t2, ranges2[j])
      ensures !(ranges2[j].start < le2 && ranges2[j].end > ls2)
    {
      if j < i {
        assert ranges2[j].end <= ranges2[i].start;
        assert t2[ranges2[j].end - 1] == GREATER;
      }
      if j > i { assert ranges2[i].end <= ranges2[j].start; }
    }
  }

  /** No comment over several lines touches a line that was just commented out. */
  lemma {:induction false} NewLineNotInLong(f: First, ranges2: seq<Range>, k: nat)
    requires f.Valid() && k < |f.lines| && f.lines[k].kind.Plain?
    requires Comments(f.t2, ranges2) && AddedSpan(f.lines[k], f.edits) in ranges2
    ensures !InLongComment(f.t2, ranges2, At2(f, k), At2(f, k) + |f.lines[k].body| + 9)
  {
    var ls2, front, le2 := At2(f, k), At2(f, k) + Indent(f.lines[k].body), At2(f, k) + |f.lines[k].body| + 9;
    AddedSpanAt(f, k);
    assert AddedSpan(f.lines[k], f.edits) == Range(front, le2);
    NewSpanOnOneLine(f, k);
    NoArrowInIndent(f, k);
    SpanNotInLong(f.t2, ranges2, ls2, front, le2);
  }

  lemma {:induction false} NoArrowInIndent(f: First, k: nat)
    requires f.Valid() && k < |f.lines| && f.lines[k].kind.Plain?
    ensures forall u :: At2(f, k) <= u < At2(f, k) + Indent(f.lines[k].body) && u < |f.t2| ==> f.t2[u] != GREATER
  {
    forall u | At2(f, k) <= u < At2(f, k) + Indent(f.lines[k].body) && u < |f.t2| ensures f.t2[u] != GREATER {
      var body, j := f.lines[k].body, u - At2(f, k);
      LineText(f, k);
      CommentTextUnits(body, j);
      assert f.raws2[k][j] == CommentText(body)[j];
      LineUnit(f, k, j);
    }
  }

  // ----- no comment of a checked toggle is a marker --------------------------------------------------------

  /** A line's comment that is a marker puts that marker where the comment starts. */
  lemma {:induction false} MarkerOfLine(body: Str)
    requires !HasMarker(body) && HasMarker(CommentText(body))
    ensures MarkerHere(BlockText(body[Indent(body)..]))
  {
    var left, core := body[..Indent(body)], body[Indent(body)..];
    assert HasMarker(BlockText(core)) by {
      assert CommentText(body) == left + BlockText(core);
      assert forall k :: 0 <= k < |left| ==> left[k] == body[k] && TabOrSpace(body[k]);
      BehindBlanks(left, BlockText(core));
    }
    assert !HasMarker(core) by { NoMarkerBehind(body, Indent(body)); }
    OnlyOpeningMarks(core);
  }

  lemma {:induction false} NoMarkerBehind(s: Str, i: nat)
    requires i <= |s| && !HasMarker(s)
    ensures !HasMarker(s[i..])
  {
    assert s[i..] == s[i..|s|];
    if HasMarker(s[i..|s|]) {
      MarkerInSlice(s, i, |s|);
      assert false;
    }
  }

  /** A stretch of line k of the region, in the new text. */
  lemma {:induction false} LineSlice(f: First, k: nat, a: nat, b: nat)
    requires f.Parts() && k < |f.raws2| && a < b <= |f.raws2[k]|
    ensures At2(f, k) + b <= |f.t2| && f.t2[At2(f, k) + a..At2(f, k) + b] == f.raws2[k][a..b]
  {
    LineUnit(f, k, a);
    forall j | a <= j < b ensures f.t2[At2(f, k) + j] == f.raws2[k][j] { LineUnit(f, k, j); }
  }

  /** The comment written on plain line k, in the new text. */
  lemma {:induction false} CommentPlaced(f: First, k: nat, p: nat, x: Str)
    requires f.Valid() && k < |f.lines| && f.lines[k].kind.Plain?
    requires p == At2(f, k) + Indent(f.lines[k].body) && x == BlockText(f.lines[k].body[Indent(f.lines[k].body)..])
    ensures p + |x| <= |f.t2| && f.t2[p..p + |x|] == x
  {
    var body := f.lines[k].body;
    var i := Indent(body);
    LineText(f, k);
    CommentInLine(body[..i], x, f.raws[k][|body|..], f.raws2[k]);
    LineSlice(f, k, i, i + |x|);
  }

  lemma {:induction false} CommentInLine(left: Str, x: Str, right: Str, raw: Str)
    requires raw == (left + x) + right
    ensures |left| + |x| <= |raw| && raw[|left|..|left| + |x|] == x
  {
  }

  /** No comment that a checked toggle wrote is a marker: the scanner would not report it. */
  lemma {:induction false} NoMarkerMade(f: First, ranges2: seq<Range>, k: nat)
    requires f.Valid() && k < |f.lines| && f.lines[k].kind.Plain? && !HasMarker(f.lines[k].body)
    requires NoMarkers(f.t2, ranges2) && AddedSpan(f.lines[k], f.edits) in ranges2
    ensures !HasMarker(CommentText(f.lines[k].body))
  {
    var body := f.lines[k].body;
    var p, x := At2(f, k) + Indent(body), BlockText(body[Indent(body)..]);
    assert !MarkerAt(f.t2, p) by {
      AddedSpanAt(f, k);
      ReportedNoMarker(f.t2, ranges2, p, AddedSpan(f.lines[k], f.edits));
    }
    assert p + |x| <= |f.t2| && f.t2[p..p + |x|] == x by { CommentPlaced(f, k, p, x); }
    NoMarkerText(body, f.t2, p, x);
  }

  lemma {:induction false} ReportedNoMarker(t: Str, rs: seq<Range>, p: nat, r: Range)
    requires NoMarkers(t, rs) && r in rs && r.start == p
    ensures !MarkerAt(t, p)
  {
  }

  lemma {:induction false} NoMarkerText(body: Str, t: Str, p: nat, x: Str)
    requires !HasMarker(body) && x == BlockText(body[Indent(body)..])
    requires p + |x| <= |t| && t[p..p + |x|] == x && !MarkerAt(t, p)
    ensures !HasMarker(CommentText(body))
  {
    if HasMarker(CommentText(body)) {
      MarkerOfLine(body);
      MarkerPlaced(t, p, x);
      assert false;
    }
  }

  /** A commented-out line is read back as a comment, unless it reads as a tag line. */
  lemma {:induction false} NewLineKind(t2: Str, ranges2: seq<Range>, ls2: nat, body: Str)
    requires Indent(body) < |body| && !HasArrow(body) && !HasMarker(CommentText(body))
    requires !InLongComment(t2, ranges2, ls2, ls2 + |body| + 9)
    ensures KindOf(t2, ranges2, ls2, CommentText(body)) == if ReadsAsTag(body) then Tag else Commented
  {
    CommentTextMatches(body);
    CommentTextUnits(body, 0);
  }

  lemma {:induction false} SameKind(t: Str, ranges: seq<Range>, ls: nat, t2: Str, ranges2: seq<Range>, ls2: nat,
        body: Str)
    requires InLongComment(t, ranges, ls, ls + |body|) <==> InLongComment(t2, ranges2, ls2, ls2 + |body|)
    ensures KindOf(t2, ranges2, ls2, body) == KindOf(t, ranges, ls, body)
  {
  }

  lemma {:induction false} PlainText(t: Str, ranges: seq<Range>, ls: nat, body: Str)
    requires KindOf(t, ranges, ls, body).Plain?
    ensures Indent(body) < |body| && !HasArrow(body) && !HasMarker(body)
  {
    assert !AllSpace(body);
  }

  lemma {:induction false} KindTwoPlain(f: First, ranges: seq<Range>, ranges2: seq<Range>, k: nat)
    requires f.Valid() && k < |f.lines| && f.lines[k].kind.Plain?
    requires KindOf(f.t, ranges, f.lines[k].ls, f.lines[k].body).Plain?
    requires Comments(f.t2, ranges2) && NoMarkers(f.t2, ranges2) && AddedSpan(f.lines[k], f.edits) in ranges2
    ensures var kind2 := KindOf(f.t2, ranges2, At2(f, k), WithoutReturn(f.raws2[k]));
      KindAfter(f.lines[k], kind2)
  {
    var l := f.lines[k];
    LineText(f, k);
    PlainText(f.t, ranges, l.ls, l.body);
    CommentedRaw(l.body, f.raws[k]);
    NewLineNotInLong(f, ranges2, k);
    NoMarkerMade(f, ranges2, k);
    NewLineKind(f.t2, ranges2, At2(f, k), l.body);
  }

  lemma {:induction false} KindTwoOther(f: First, ranges: seq<Range>, ranges2: seq<Range>, k: nat)
    requires f.Valid() && k < |f.lines| && !f.lines[k].kind.Plain?
    requires Comments(f.t, ranges) && MovedAndNew(f.t2, ranges, f.edits, ranges2)
    requires f.lines[k].kind == KindOf(f.t, ranges, f.lines[k].ls, f.lines[k].body)
    ensures KindAfter(f.lines[k], KindOf(f.t2, ranges2, At2(f, k), WithoutReturn(f.raws2[k])))
  {
    var l := f.lines[k];
    LineText(f, k);
    RigidLine(f, k);
    LongCommentsMove(f.t, ranges, f.edits, ranges2, l.ls, l.End(), At2(f, k), At2(f, k) + |l.body|);
    SameKind(f.t, ranges, l.ls, f.t2, ranges2, At2(f, k), l.body);
  }

  lemma {:induction false} KindOneAt(f: First, kindAt: KindAt, k: nat)
    requires f.Region() && k < |f.lines| && f.lines == LinesFrom(kindAt, f.start, f.raws)
    ensures f.lines[k].kind == kindAt(f.lines[k].ls, f.lines[k].body)
  {
    FitsAt(f.lines, f.raws, f.start, k);
    LinesFromAt(kindAt, f.start, f.raws, k);
  }

  lemma {:induction false} KindOne(f: First, ranges: seq<Range>, k: nat)
    requires f.Region() && k < |f.lines| && f.lines == LinesFrom(KindsOf(f.t, ranges), f.start, f.raws)
    ensures f.lines[k].kind == KindOf(f.t, ranges, f.lines[k].ls, f.lines[k].body)
  {
    KindOneAt(f, KindsOf(f.t, ranges), k);
  }

  /** What a line of the new text is, from what it was. */
  predicate KindAfter(l: Line, kind2: Kind) {
    if !l.kind.Plain? then kind2 == l.kind
    else kind2 == if ReadsAsTag(l.body) then Tag else Commented
  }

  lemma {:induction false} KindTwo(f: First, ranges: seq<Range>, ranges2: seq<Range>, k: nat)
    requires f.Valid() && k < |f.lines| && f.lines == LinesFrom(KindsOf(f.t, ranges), f.start, f.raws)
    requires Comments(f.t, ranges) && Comments(f.t2, ranges2) && NoMarkers(f.t2, ranges2)
    requires ranges2 == SortByStart(Kept(ranges, [], f.edits) + Added(f.lines, f.edits))
    ensures KindAfter(f.lines[k], KindOf(f.t2, ranges2, At2(f, k), WithoutReturn(f.raws2[k])))
  {
    KindOne(f, ranges, k);
    CommentsAfter(f, ranges, ranges2);
    if f.lines[k].kind.Plain? {
      KindTwoPlain(f, ranges, ranges2, k);
    } else {
      KindTwoOther(f, ranges, ranges2, k);
    }
  }

  lemma {:induction false} RigidLine(f: First, k: nat)
    requires f.Region() && k < |f.lines| && !f.lines[k].kind.Plain?
    ensures f.lines[k].ls == At1(f, k)
    ensures Rigid(f.edits, f.lines[k].ls, f.lines[k].End(), At2(f, k), At2(f, k) + |f.lines[k].body|)
  {
    FitsAt(f.lines, f.raws, f.start, k);
    var l := f.lines[k];
    MapPosInLine(f, k, l.ls, Never);
    MapPosInLine(f, k, l.ls, Always);
    MapPosInLine(f, k, l.End(), Never);
    MapPosInLine(f, k, l.End(), Always);
  }
}
