/**
  Ctrl+/: turns the lines of a selection into HTML comments, one per line or one around them all, or back.
  The scanner that finds the comments of a text is a parameter; what it promises is `CommentScanner`.
 */
module CommentToggle {
  import opened Text
  import opened Markers
  import opened EditCalculus
  import opened LineCalculus

  datatype Range = Range(start: int, end: int)

  type Scanner = Str -> seq<Range>

  datatype Kind = Plain | Empty | Marker | Tag | Blocked | Commented
  datatype Status = CommentedOut | Uncommented | Nothing | Refused
  datatype Reason = NoReason | Tags | HasMarkers | Terminator | Overlap | Unclosed | Unsafe
  datatype Style = LineStyle | BlockStyle

  datatype Line = Line(ls: nat, body: Str, kind: Kind) {
    function End(): nat { ls + |body| }
  }

  /** The edit that one key press makes: [start, end) becomes `replacement`, and the selection moves. */
  datatype Toggle = Toggle(start: nat, end: nat, replacement: Str, selStart: int, selEnd: int,
                           status: Status, reason: Reason, skipped: seq<nat>)

  /** "<!-- " */
  const OPEN: Str := [LESS, BANG, DASH, DASH, SPACE]
  /** " -->" */
  const CLOSE: Str := [SPACE, DASH, DASH, GREATER]

  /** Comments come in order, do not overlap, and each runs from a "<!--" to a "-->". */
  ghost predicate Comments(t: Str, rs: seq<Range>) {
    && (forall i :: 0 <= i < |rs| ==>
      0 <= rs[i].start < rs[i].end <= |t| && OpensAt(t, rs[i].start) && rs[i].end >= 3 && ArrowAt(t, rs[i].end - 3))
    && (forall i, j :: 0 <= i < j < |rs| ==> rs[i].end <= rs[j].start)
  }

  /** None of them is one of md-memo's own markers. */
  ghost predicate NoMarkers(t: Str, rs: seq<Range>) {
    forall i :: 0 <= i < |rs| ==> 0 <= rs[i].start && !MarkerAt(t, rs[i].start)
  }

  /** What the scanner of HTML comments promises. */
  ghost predicate CommentScanner(scan: Scanner) {
    forall t :: Comments(t, scan(t)) && NoMarkers(t, scan(t))
  }

  /** A text with one comment around it. */
  function BlockText(inner: Str): Str { OPEN + (inner + CLOSE) }

  // ----- kinds of lines ------------------------------------------------------------------------------------

  predicate TabOrSpace(c: CodeUnit) { c == TAB || c == SPACE }

  predicate TabSpaceOrReturn(c: CodeUnit) { TabOrSpace(c) || c == CR }

  function Lower(c: CodeUnit): CodeUnit {
    if 0x41 <= c <= 0x5A then c + 0x20 else c
  }

  function LowerAll(s: Str): (r: Str)
    ensures |r| == |s|
  {
    seq(|s|, i requires 0 <= i < |s| => Lower(s[i]))
  }

  /** "tag" and "tags" */
  const TAG_KEY: Str := [0x74, 0x61, 0x67]
  const TAGS_KEY: Str := [0x74, 0x61, 0x67, 0x73]

  function FirstColon(s: Str): (k: nat)
    ensures k <= |s|
  {
    RunEnd(s, 0, c => c != COLON)
  }

  /** One whole tag comment: "<!-- tags: a, b -->" with nothing but blanks around it. */
  predicate IsTagLine(line: Str) {
    var b := RunEnd(line, 0, TabOrSpace);
    var e := RunStart(line, |line|, TabSpaceOrReturn);
    if e < b + 7 then false
    else
      var s := line[b..e];
      OpensAt(s, 0) && ArrowAt(s, |s| - 3) &&
      var inner := s[4..|s| - 3];
      !HasArrow(inner) && !HasOpen(inner) &&
      var colon := FirstColon(inner);
      colon < |inner| &&
      var key := LowerAll(Trim(inner[..colon]));
      key == TAGS_KEY || key == TAG_KEY
  }

  datatype OneLine = NoMatch | OneLine(indent: nat, innerStart: nat, innerEnd: nat, closeEnd: nat)

  /**
    The expression ^(\s*)<!--(\s?)([\s\S]*?)\s?-->(\s*)$ on one line. Only white space may follow the "-->",
    so it is the last thing on the line that is not white space; the inner text is the shortest that fits.
   */
  function MatchOneLine(body: Str): (m: OneLine)
    ensures m.OneLine? ==> m.indent + 4 <= m.innerStart <= m.innerEnd <= m.closeEnd <= |body|
    ensures m.OneLine? ==> OpensAt(body, m.indent) && m.innerEnd + 3 <= m.closeEnd && ArrowAt(body, m.closeEnd - 3)
  {
    var indent := RunEnd(body, 0, IsSpace);
    if !OpensAt(body, indent) then NoMatch
    else
      var innerStart := if indent + 4 < |body| && IsSpace(body[indent + 4]) then indent + 5 else indent + 4;
      var closeEnd := RunStart(body, |body|, IsSpace);
      if closeEnd < innerStart + 3 || !ArrowAt(body, closeEnd - 3) then NoMatch
      else if closeEnd - 4 >= innerStart && IsSpace(body[closeEnd - 4])
        then OneLine(indent, innerStart, closeEnd - 4, closeEnd)
      else OneLine(indent, innerStart, closeEnd - 3, closeEnd)
  }

  predicate IsOneComment(body: Str) {
    var m := MatchOneLine(body);
    m.OneLine? && !HasArrow(body[m.innerStart..m.innerEnd])
  }

  predicate SpansLines(t: Str, r: Range) {
    exists k :: 0 <= k < |t| && r.start <= k < r.end && t[k] == LF
  }

  /** A comment over several lines touches [ls, le). */
  predicate InLongComment(t: Str, ranges: seq<Range>, ls: nat, le: nat) {
    exists i :: 0 <= i < |ranges| && SpansLines(t, ranges[i]) && ranges[i].start < le && ranges[i].end > ls
  }

  function KindOf(t: Str, ranges: seq<Range>, ls: nat, body: Str): Kind {
    if AllSpace(body) then Empty
    else if HasMarker(body) then Marker
    else if IsTagLine(body) then Tag
    else if InLongComment(t, ranges, ls, ls + |body|) then Blocked
    else if IsOneComment(body) then Commented
    else if HasArrow(body) then Blocked
    else Plain
  }

  function WithoutReturn(raw: Str): (body: Str)
    ensures |raw| - 1 <= |body| <= |raw| && body == raw[..|body|]
  {
    if raw != [] && raw[|raw| - 1] == CR then raw[..|raw| - 1] else raw
  }

  /** How the line at a position, with its text, is to be treated. */
  type KindAt = (nat, Str) -> Kind

  function KindsOf(t: Str, ranges: seq<Range>): KindAt {
    (ls: nat, body: Str) => KindOf(t, ranges, ls, body)
  }

  function LinesFrom(kindAt: KindAt, ls: nat, raws: seq<Str>): (lines: seq<Line>)
    ensures |lines| == |raws|
    decreases |raws|
  {
    if raws == [] then []
    else [LineAt(kindAt, ls, raws[0])] + LinesFrom(kindAt, ls + |raws[0]| + 1, raws[1..])
  }

  function LineAt(kindAt: KindAt, ls: nat, raw: Str): Line {
    Line(ls, WithoutReturn(raw), kindAt(ls, WithoutReturn(raw)))
  }

  function Indent(body: Str): (n: nat)
    ensures n <= |body|
  {
    RunEnd(body, 0, TabOrSpace)
  }

  // ----- the edits -----------------------------------------------------------------------------------------

  /** The two edits that comment a plain line out. */
  function Comment(l: Line): seq<Edit> {
    [Edit(l.ls + Indent(l.body), 0, OPEN, EditKind.Open), Edit(l.End(), 0, CLOSE, EditKind.Close)]
  }

  /** The two deletions that take the comment off a line. */
  function Uncomment(l: Line): seq<Edit>
    requires MatchOneLine(l.body).OneLine?
  {
    var m := MatchOneLine(l.body);
    [Edit(l.ls + m.indent, m.innerStart - m.indent, [], EditKind.Open),
     Edit(l.ls + m.innerEnd, m.closeEnd - m.innerEnd, [], EditKind.Close)]
  }

  /** What a toggle does to one line. */
  function EditsOfLine(l: Line, commenting: bool): (es: seq<Edit>)
    ensures es == [] || |es| == 2
  {
    if commenting && l.kind.Plain? then Comment(l)
    else if !commenting && l.kind.Commented? && MatchOneLine(l.body).OneLine? then Uncomment(l)
    else []
  }

  function EditsOf(lines: seq<Line>, commenting: bool): seq<Edit> {
    if lines == [] then [] else EditsOfLine(lines[0], commenting) + EditsOf(lines[1..], commenting)
  }

  function Removed(lines: seq<Line>): seq<Range> {
    if lines == [] then []
    else RemovedOfLine(lines[0]) + Removed(lines[1..])
  }

  function RemovedOfLine(l: Line): seq<Range> {
    if l.kind.Commented? && MatchOneLine(l.body).OneLine? then [RemovedSpan(l)] else []
  }

  function RemovedSpan(l: Line): Range
    requires MatchOneLine(l.body).OneLine?
  {
    Range(l.ls + MatchOneLine(l.body).indent, l.ls + MatchOneLine(l.body).closeEnd)
  }

  function AddedSpan(l: Line, edits: seq<Edit>): Range {
    var s := MapPos(l.ls + Indent(l.body), edits, Never);
    Range(s, s + |OPEN| + (|l.body| - Indent(l.body)) + |CLOSE|)
  }

  function Added(lines: seq<Line>, edits: seq<Edit>): seq<Range> {
    if lines == [] then []
    else (if lines[0].kind.Plain? then [AddedSpan(lines[0], edits)] else []) + Added(lines[1..], edits)
  }

  function Skipped(lines: seq<Line>, first: nat): seq<nat> {
    if lines == [] then []
    else (if lines[0].kind.Blocked? then [first] else []) + Skipped(lines[1..], first + 1)
  }

  predicate HasKind(lines: seq<Line>, kind: Kind) {
    exists i :: 0 <= i < |lines| && lines[i].kind == kind
  }

  // ----- the structural check ------------------------------------------------------------------------------

  /** The old comments that were not taken off, where the edit puts them. */
  function Kept(ranges: seq<Range>, removed: seq<Range>, edits: seq<Edit>): seq<Range> {
    if ranges == [] then []
    else KeptRange(ranges[0], removed, edits) + Kept(ranges[1..], removed, edits)
  }

  function KeptRange(r: Range, removed: seq<Range>, edits: seq<Edit>): seq<Range> {
    if r in removed then [] else [Range(MapPos(r.start, edits, Never), MapPos(r.end, edits, Always))]
  }

  function InsertByStart(r: Range, rs: seq<Range>): (q: seq<Range>)
    ensures |q| == |rs| + 1
  {
    if rs == [] || r.start <= rs[0].start then [r] + rs else [rs[0]] + InsertByStart(r, rs[1..])
  }

  /** The stable sort by start. */
  function SortByStart(rs: seq<Range>): (q: seq<Range>)
    ensures |q| == |rs|
  {
    if rs == [] then [] else InsertByStart(rs[0], SortByStart(rs[1..]))
  }

  /** The edited text has the comments it should have and no others. */
  predicate SameStructure(scan: Scanner, next: Str, ranges: seq<Range>, removed: seq<Range>, added: seq<Range>,
        edits: seq<Edit>) {
    scan(next) == SortByStart(Kept(ranges, removed, edits) + added)
  }

  // ----- the two styles ------------------------------------------------------------------------------------

  function Unchanged(t: Str, start: nat, end: nat, a: nat, b: nat, status: Status, reason: Reason,
        skipped: seq<nat>): Toggle
    requires start <= end <= |t|
  {
    Toggle(start, end, t[start..end], a, b, status, reason, skipped)
  }

  function RefuseUnsafe(unclosed: Str -> int, t: Str, start: nat, end: nat, a: nat, b: nat): Toggle
    requires start <= end <= |t|
  {
    var u := unclosed(t);
    Unchanged(t, start, end, a, b, Refused, if u != -1 && u < end then Unclosed else Unsafe, [])
  }

  function RegionLines(t: Str, ranges: seq<Range>, start: nat, end: nat): (lines: seq<Line>)
    requires start <= end <= |t|
  {
    LinesFrom(KindsOf(t, ranges), start, SplitLines(t[start..end]))
  }

  /** The edits of a line-style toggle: plain lines are commented; when there are none, comments come off. */
  function LineEdits(lines: seq<Line>): seq<Edit> {
    EditsOf(lines, HasKind(lines, Plain))
  }

  /** One comment per line. */
  function LineToggle(scan: Scanner, unclosed: Str -> int, t: Str, start: nat, end: nat, a: nat, b: nat): (r: Toggle)
    requires start <= end <= |t|
    ensures r.start == start && r.end == end
    ensures r.status.Nothing? || r.status.Refused? ==>
      r.replacement == t[start..end] && r.selStart == a && r.selEnd == b
  {
    var ranges := scan(t);
    var lines := RegionLines(t, ranges, start, end);
    var skipped := Skipped(lines, LineNumber(t, start));
    if !HasKind(lines, Plain) && !HasKind(lines, Commented) then
      Unchanged(t, start, end, a, b, Nothing, if HasKind(lines, Tag) then Tags else NoReason, skipped)
    else
      var edits := LineEdits(lines);
      LineEditsOrdered(t, ranges, start, end);
      var commenting := HasKind(lines, Plain);
      var removed := if commenting then [] else Removed(lines);
      var added := if commenting then Added(lines, edits) else [];
      if !SameStructure(scan, Edited(t, start, end, edits), ranges, removed, added, edits) then
        RefuseUnsafe(unclosed, t, start, end, a, b)
      else
        var sel := MapSelection(a, b, edits);
        Toggle(start, end, Apply(t, start, end, edits), sel.0, sel.1, if commenting then CommentedOut
          else Uncommented, NoReason, skipped)
  }

  // ----- the whole toggle ----------------------------------------------------------------------------------

  /**
    The end of the region that a press with selection [a, b] works on: that of the last line with a selected unit, or
    of the caret's line.
   */
  function RegionEnd(t: Str, a: nat, b: nat): (end: nat)
    requires a <= b <= |t|
    ensures LineStart(t, a) <= end <= |t|
  {
    var lastPos := if b > a && b == LineStart(t, b) then b - 1 else b;
    NextBreak(t, lastPos) // lastPos is never before the start of its line
  }

  /** The line style for a selection given by any two numbers. */
  function ToggleLineStyle(scan: Scanner, unclosed: Str -> int, t: Str, selStart: int, selEnd: int): (r: Toggle)
  {
    var x, y := Clamp(selStart, |t|), Clamp(selEnd, |t|);
    var a, b := if y < x then y else x, if y < x then x else y;
    LineToggle(scan, unclosed, t, LineStart(t, a), RegionEnd(t, a, b), a, b)
  }

  /** The edits of one line are a pair that stays inside it. */
  ghost predicate PairFits(l: Line) {
    && (l.kind.Plain? ==> Indent(l.body) < |l.body|)
    && (l.kind.Commented? ==> MatchOneLine(l.body).OneLine?)
  }

  /** Whatever a line's kind is, its edits fit. */
  ghost predicate Sound(kindAt: KindAt) {
    forall ls, body :: PairFits(Line(ls, body, kindAt(ls, body)))
  }

  lemma KindsSound(t: Str, ranges: seq<Range>)
    ensures Sound(KindsOf(t, ranges))
  {
    forall ls, body: Str ensures PairFits(Line(ls, body, KindsOf(t, ranges)(ls, body))) {
      if KindOf(t, ranges, ls, body).Plain? { assert !AllSpace(body); }
    }
  }

  /** Lines one after another in [lo, hi], at least one unit (the break) apart. */
  ghost predicate Laid(lines: seq<Line>, lo: nat, hi: nat) {
    if lines == [] then true
    else lo <= lines[0].ls && lines[0].End() <= hi && PairFits(lines[0]) && Laid(lines[1..], lines[0].End() + 1, hi)
  }

  lemma LaidWeaken(lines: seq<Line>, lo: nat, lower: nat, hi: nat)
    requires Laid(lines, lo, hi) && lower <= lo
    ensures Laid(lines, lower, hi)
    ensures lo > hi ==> lines == []
  {
  }

  lemma {:induction false} LinesLaid(kindAt: KindAt, ls: nat, raws: seq<Str>, hi: nat)
    requires Sound(kindAt) && raws != [] && hi == ls + |JoinLines(raws)|
    ensures Laid(LinesFrom(kindAt, ls, raws), ls, hi)
    decreases |raws|
  {
    var l := LinesFrom(kindAt, ls, raws)[0];
    var next := ls + |raws[0]| + 1;
    if |raws| > 1 {
      LinesLaid(kindAt, next, raws[1..], hi);
      LaidWeaken(LinesFrom(kindAt, next, raws[1..]), next, l.End() + 1, hi);
    }
  }

  lemma {:induction false} EditsOrdered(lines: seq<Line>, commenting: bool, lo: nat, hi: nat)
    requires lo <= hi && Laid(lines, lo, hi)
    ensures Ordered(EditsOf(lines, commenting), lo, hi)
  {
    if lines != [] {
      var l, es, rest := lines[0], EditsOfLine(lines[0], commenting), EditsOf(lines[1..], commenting);
      var next := if l.End() < hi then l.End() + 1 else hi;
      LaidWeaken(lines[1..], l.End() + 1, next, hi);
      EditsOrdered(lines[1..], commenting, next, hi);
      if es == [] {
        assert es + rest == rest;
        OrderedWeaken(rest, next, hi, lo);
      } else {
        OrderedWeaken(rest, next, hi, es[1].pos + es[1].del);
        PairThenOrdered(es[0], es[1], rest, lo, hi);
      }
    }
  }

  lemma LineEditsOrdered(t: Str, ranges: seq<Range>, start: nat, end: nat)
    requires start <= end <= |t|
    ensures Ordered(LineEdits(RegionLines(t, ranges, start, end)), start, end)
  {
    var raws := SplitLines(t[start..end]);
    JoinSplit(t[start..end]);
    KindsSound(t, ranges);
    LinesLaid(KindsOf(t, ranges), start, raws, end);
    var lines := RegionLines(t, ranges, start, end);
    EditsOrdered(lines, HasKind(lines, Plain), start, end);
  }

  // ----- the loops of the line style -----------------------------------------------------------------------

  /** Reads the lines of a region, the first one at `start`. */
  method ReadLines(kindAt: KindAt, start: nat, raws: seq<Str>) returns (lines: seq<Line>)
    ensures lines == LinesFrom(kindAt, start, raws)
  {
    lines := [];
    var pos: nat := start;
    ghost var whole := LinesFrom(kindAt, start, raws);
    for i := 0 to |raws|
      invariant pos == start + Offset(raws, i) && lines == whole[..i]
    {
      LinesFromAt(kindAt, start, raws, i);
      OffsetNext(raws, i);
      lines := lines + [LineAt(kindAt, pos, raws[i])];
      pos := pos + |raws[i]| + 1;
    }
  }

  lemma {:induction false} LinesFromAt(kindAt: KindAt, ls: nat, raws: seq<Str>, k: nat)
    requires k < |raws|
    ensures LinesFrom(kindAt, ls, raws)[k] == LineAt(kindAt, ls + Offset(raws, k), raws[k])
    decreases k
  {
    if k > 0 { LinesFromAt(kindAt, ls + |raws[0]| + 1, raws[1..], k - 1); }
  }

  method CollectEdits(lines: seq<Line>, commenting: bool) returns (edits: seq<Edit>)
    ensures edits == EditsOf(lines, commenting)
  {
    edits := [];
    for i := 0 to |lines|
      invariant edits + EditsOf(lines[i..], commenting) == EditsOf(lines, commenting)
    {
      assert lines[i..][1..] == lines[i + 1..];
      AppendStep(edits, EditsOfLine(lines[i], commenting), EditsOf(lines[i + 1..], commenting));
      edits := edits + EditsOfLine(lines[i], commenting);
    }
  }

  method CollectRemoved(lines: seq<Line>) returns (removed: seq<Range>)
    ensures removed == Removed(lines)
  {
    removed := [];
    for i := 0 to |lines|
      invariant removed + Removed(lines[i..]) == Removed(lines)
    {
      assert lines[i..][1..] == lines[i + 1..];
      AppendStep(removed, RemovedOfLine(lines[i]), Removed(lines[i + 1..]));
      removed := removed + RemovedOfLine(lines[i]);
    }
  }

  method CollectAdded(lines: seq<Line>, edits: seq<Edit>) returns (added: seq<Range>)
    ensures added == Added(lines, edits)
  {
    added := [];
    for i := 0 to |lines|
      invariant added + Added(lines[i..], edits) == Added(lines, edits)
    {
      var l := lines[i];
      assert lines[i..][1..] == lines[i + 1..];
      if l.kind.Plain? {
        var s := MapPosition(l.ls + Indent(l.body), edits, Never);
        AppendStep(added, [AddedSpan(l, edits)], Added(lines[i + 1..], edits));
        added := added + [Range(s, s + |OPEN| + (|l.body| - Indent(l.body)) + |CLOSE|)];
      }
    }
  }

  method CollectSkipped(lines: seq<Line>, first: nat) returns (skipped: seq<nat>)
    ensures skipped == Skipped(lines, first)
  {
    skipped := [];
    for i := 0 to |lines|
      invariant skipped + Skipped(lines[i..], first + i) == Skipped(lines, first)
    {
      assert lines[i..][1..] == lines[i + 1..];
      if lines[i].kind.Blocked? { skipped := skipped + [first + i]; }
    }
  }

  /** The structural check: the comments that should be there, in order, against those that are. */
  method CheckStructure(scan: Scanner, next: Str, ranges: seq<Range>, removed: seq<Range>, added: seq<Range>,
        edits: seq<Edit>)
      returns (ok: bool)
    requires forall i :: 0 <= i < |ranges| ==> 0 <= ranges[i].start && 0 <= ranges[i].end
    ensures ok == SameStructure(scan, next, ranges, removed, added, edits)
  {
    var kept := CollectKept(ranges, removed, edits);
    ok := SameRanges(scan(next), SortByStart(kept + added));
  }

  method CollectKept(ranges: seq<Range>, removed: seq<Range>, edits: seq<Edit>) returns (kept: seq<Range>)
    requires forall i :: 0 <= i < |ranges| ==> 0 <= ranges[i].start && 0 <= ranges[i].end
    ensures kept == Kept(ranges, removed, edits)
  {
    kept := [];
    for i := 0 to |ranges|
      invariant kept + Kept(ranges[i..], removed, edits) == Kept(ranges, removed, edits)
    {
      var r := ranges[i];
      assert ranges[i..][1..] == ranges[i + 1..];
      AppendStep(kept, KeptRange(r, removed, edits), Kept(ranges[i + 1..], removed, edits));
      if r !in removed {
        var s := MapPosition(r.start, edits, Never);
        var e := MapPosition(r.end, edits, Always);
        kept := kept + [Range(s, e)];
      }
    }
  }

  method SameRanges(got: seq<Range>, expected: seq<Range>) returns (same: bool)
    ensures same == (got == expected)
  {
    if |got| != |expected| { return false; }
    for i := 0 to |got|
      invariant got[..i] == expected[..i]
    {
      if got[i].start != expected[i].start || got[i].end != expected[i].end {
        assert got[i] != expected[i];
        return false;
      }
    }
    same := true;
  }

  /** One comment per line, step by step. */
  method ToggleLines(scan: Scanner, unclosed: Str -> int, t: Str, start: nat, end: nat, a: nat, b: nat)
    returns (r: Toggle)
    requires CommentScanner(scan) && start <= end <= |t| && a <= |t| && b <= |t|
    ensures r == LineToggle(scan, unclosed, t, start, end, a, b)
  {
    var ranges := scan(t);
    var lines := ReadLines(KindsOf(t, ranges), start, SplitLines(t[start..end]));
    var skipped := CollectSkipped(lines, LineNumber(t, start));
    var commenting := HasKind(lines, Plain);
    if !commenting && !HasKind(lines, Commented) {
      return Unchanged(t, start, end, a, b, Nothing, if HasKind(lines, Tag) then Tags else NoReason, skipped);
    }
    var edits := CollectEdits(lines, commenting);
    LineEditsOrdered(t, ranges, start, end);
    var replacement := ApplyEdits(t, start, end, edits);
    var removed: seq<Range>, added: seq<Range> := [], [];
    if commenting {
      added := CollectAdded(lines, edits);
    } else {
      removed := CollectRemoved(lines);
    }
    assert Comments(t, ranges);
    var ok := CheckStructure(scan, t[..start] + replacement + t[end..], ranges, removed, added, edits);
    if !ok { return RefuseUnsafe(unclosed, t, start, end, a, b); }
    var sel := MapSelection(a, b, edits);
    r := Toggle(start, end, replacement, sel.0, sel.1, if commenting then CommentedOut
      else Uncommented, NoReason, skipped);
  }
}
