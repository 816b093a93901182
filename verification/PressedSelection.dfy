/** Where the selection is after a press that comments lines out, and which lines are reported as left alone. */
module PressedSelection {
  import opened Text
  import opened Markers
  import opened EditCalculus
  import opened LineCalculus
  import opened CommentToggle
  import opened ToggleRoundTrip
  import opened ToggleTwice
  import opened ToggleTheorem
  import opened LineForms
  import opened PressedText

  /**
    Where unit j of a line goes when "<!-- " comes at `indent` and " -->" at n: behind either when it is behind its
    place, and at its place when it is to go behind there.
   */
  function Carried(indent: nat, n: nat, j: nat, behindOpening: bool, behindEnd: bool): nat {
    var opening := if j > indent || (j == indent && behindOpening) then 5 else 0;
    j + opening + if j > n || (j == n && behindEnd) then 4 else 0
  }

  lemma {:induction false} CommentCarries(l: Line, j: nat, after: After, atOpening: bool, atEnd: bool)
    requires Indent(l.body) < |l.body|
    requires after(Comment(l)[0]) == atOpening && after(Comment(l)[1]) == atEnd
    ensures MapPos(l.ls + j, Comment(l), after) == l.ls + Carried(Indent(l.body), |l.body|, j, atOpening, atEnd)
  {
    var d, c, p := Comment(l)[0], Comment(l)[1], l.ls + j;
    assert Comment(l)[1..] == [c] && [c][1..] == [];
    assert MapPos(p, [c], after) == if p > c.pos || (p == c.pos && atEnd) then 4 + p else p;
  }

  /** Whether a place goes behind what is put in right there. */
  ghost predicate Sides(after: After, atOpening: bool, atEnd: bool) {
    forall e: Edit :: (e.kind.Open? ==> after(e) == atOpening) && (e.kind.Close? ==> after(e) == atEnd)
  }

  /** The same for the lines of a region; only lines that get a comment carry anything. */
  function CarriedIn(kindAt: KindAt, ls: nat, raw: Str, j: nat, behindOpening: bool, behindEnd: bool): nat {
    var body := WithoutReturn(raw);
    if kindAt(ls, body).Plain? then Carried(Indent(body), |body|, j, behindOpening, behindEnd) else j
  }

  lemma {:induction false} LineCarries(f: First, kindAt: KindAt, k: nat, j: nat, after: After, atOpening: bool,
        atEnd: bool)
    requires f.Valid() && f.lines == LinesFrom(kindAt, f.start, f.raws) && k < |f.raws| && j <= |f.raws[k]|
    requires Sides(after, atOpening, atEnd)
    ensures MapPos(At1(f, k) + j, f.edits, after)
         == At2(f, k) + CarriedIn(kindAt, At1(f, k), f.raws[k], j, atOpening, atEnd)
  {
    EditsAt(f, kindAt, k, j, after, atOpening, atEnd);
    MapPosInLine(f, k, At1(f, k) + j, after);
  }

  lemma {:induction false} EditsAt(f: First, kindAt: KindAt, k: nat, j: nat, after: After, atOpening: bool,
        atEnd: bool)
    requires f.Valid() && f.lines == LinesFrom(kindAt, f.start, f.raws) && k < |f.raws|
    requires Sides(after, atOpening, atEnd)
    ensures MapPos(At1(f, k) + j, EditsOfLine(f.lines[k], true), after)
         == At1(f, k) + CarriedIn(kindAt, At1(f, k), f.raws[k], j, atOpening, atEnd)
  {
    FitsAt(f.lines, f.raws, f.start, k);
    KindOneAt(f, kindAt, k);
    EditsCarry(f.lines[k], f.raws[k], kindAt, At1(f, k), j, after, atOpening, atEnd);
  }

  lemma {:induction false} EditsCarry(l: Line, raw: Str, kindAt: KindAt, ls: nat, j: nat, after: After, atOpening: bool,
        atEnd: bool)
    requires LineFits(l, raw, ls) && l.kind == kindAt(l.ls, l.body)
    requires Sides(after, atOpening, atEnd)
    ensures MapPos(ls + j, EditsOfLine(l, true), after) == ls + CarriedIn(kindAt, ls, raw, j, atOpening, atEnd)
  {
    if l.kind.Plain? { CommentCarries(l, j, after, atOpening, atEnd); }
  }

  /** A place in a region: unit `unit` of line `line`. */
  datatype Spot = Spot(line: nat, unit: nat) {
    predicate In(raws: seq<Str>) { line < |raws| && unit <= |raws[line]| }

    ghost function Index(raws: seq<Str>, start: nat): nat
      requires line <= |raws|
    {
      start + Offset(raws, line) + unit
    }
  }

  /** Where that place is in the lines as they are after the press. */
  ghost function SpotAfter(kindAt: KindAt, start: nat, raws: seq<Str>, after: seq<Str>, at: Spot, behindOpening: bool,
        behindEnd: bool): nat
    requires at.In(raws) && |after| == |raws|
  {
    start + Offset(after, at.line) +
      CarriedIn(kindAt, start + Offset(raws, at.line), raws[at.line], at.unit, behindOpening, behindEnd)
  }

  lemma {:induction false} SelectionCarried(f: First, kindAt: KindAt, a: nat, b: nat, x: Spot, y: Spot)
    requires f.Valid() && f.lines == LinesFrom(kindAt, f.start, f.raws) && a <= b
    requires x.In(f.raws) && y.In(f.raws) && a == x.Index(f.raws, f.start) && b == y.Index(f.raws, f.start)
    ensures |f.raws2| == |f.raws|
    ensures MapSelection(a, b, f.edits)
      == if a == b then
           var c := SpotAfter(kindAt, f.start, f.raws, f.raws2, x, true, false);
           (c, c)
         else
           (SpotAfter(kindAt, f.start, f.raws, f.raws2, x, false, false),
            SpotAfter(kindAt, f.start, f.raws, f.raws2, y, true, true))
  {
    LinesStay(f);
    if a == b {
      SpotCarries(f, kindAt, a, x, AtOpen, true, false);
    } else {
      SpotCarries(f, kindAt, a, x, Never, false, false);
      SpotCarries(f, kindAt, b, y, Always, true, true);
    }
  }

  lemma {:induction false} LinesStay(f: First)
    requires f.Valid()
    ensures |f.raws2| == |f.raws|
  {
  }

  lemma {:induction false} SpotCarries(f: First, kindAt: KindAt, p: nat, x: Spot, after: After, atOpening: bool,
        atEnd: bool)
    requires f.Valid() && f.lines == LinesFrom(kindAt, f.start, f.raws) && |f.raws2| == |f.raws|
    requires x.In(f.raws) && p == x.Index(f.raws, f.start)
    requires Sides(after, atOpening, atEnd)
    ensures MapPos(p, f.edits, after) == SpotAfter(kindAt, f.start, f.raws, f.raws2, x, atOpening, atEnd)
  {
    LineCarries(f, kindAt, x.line, x.unit, after, atOpening, atEnd);
  }

  /**
    After a press that comments lines out, a caret has moved with the text, behind an opening and before an end; a
    selection has grown to hold what was put in at its edges.
   */
  lemma {:induction false} SelectionMoves(scan: Scanner, unclosed: Str -> int, t: Str, a: nat, b: nat, x: Spot, y: Spot)
    returns (after: seq<Str>)
    requires CommentScanner(scan) && a <= b <= |t|
    requires ToggleLineStyle(scan, unclosed, t, a, b).status == CommentedOut
    requires var raws := SplitLines(t[LineStart(t, a)..RegionEnd(t, a, b)]);
      x.In(raws) && y.In(raws) && a == x.Index(raws, LineStart(t, a)) && b == y.Index(raws, LineStart(t, a))
    ensures var r := ToggleLineStyle(scan, unclosed, t, a, b);
      && r.start == LineStart(t, a) && r.end == RegionEnd(t, a, b)
      && var sel := (r.selStart, r.selEnd);
      SelectionAfter(KindsOf(t, scan(t)), t, r.start, r.end, a, b, x, y, after, NoteAfter(t, r), sel)
  {
    var start, end, kindAt := LineStart(t, a), RegionEnd(t, a, b), KindsOf(t, scan(t));
    KindsSound(t, scan(t));
    var f := FirstToggle(t, kindAt, start, end);
    StyleIsToggle(scan, unclosed, t, a, b);
    FirstChecked(f, scan, unclosed, a, b);
    SelectionCarried(f, kindAt, a, b, x, y);
    after := f.raws2;
  }

  /** The note has other lines in the region, and the selection is where its ends are in them. */
  ghost predicate SelectionAfter(kindAt: KindAt, t: Str, start: nat, end: nat, a: nat, b: nat, x: Spot, y: Spot,
        after: seq<Str>, t2: Str, sel: (int, int))
    requires start <= end <= |t|
  {
    var raws := SplitLines(t[start..end]);
    && x.In(raws) && y.In(raws) && |after| == |raws| && t2 == t[..start] + JoinLines(after) + t[end..]
    && (a == b ==> sel.0 == sel.1 == SpotAfter(kindAt, start, raws, after, x, true, false))
    && (a < b ==> sel.0 == SpotAfter(kindAt, start, raws, after, x, false, false))
    && (a < b ==> sel.1 == SpotAfter(kindAt, start, raws, after, y, true, true))
  }

  // ----- the lines reported --------------------------------------------------------------------------------

  /** A line that cannot be toggled: part of a longer comment, or with an arrow and not just one comment. */
  ghost predicate CannotToggle(t: Str, ranges: seq<Range>, ls: nat, body: Str) {
    && !AllSpace(body) && !HasMarker(body) && !IsTagLine(body)
    && (InLongComment(t, ranges, ls, ls + |body|) ||
        (HasArrow(body) && forall sh: Shape :: sh.Valid() ==> sh.Whole() != body))
  }

  lemma {:induction false} BlockedKind(t: Str, ranges: seq<Range>, ls: nat, body: Str)
    ensures KindOf(t, ranges, ls, body).Blocked? <==> CannotToggle(t, ranges, ls, body)
  {
    OneCommentShape(body);
  }

  lemma {:induction false} SkippedAre(lines: seq<Line>, first: nat, n: nat)
    ensures n in Skipped(lines, first) <==> exists k :: 0 <= k < |lines| && lines[k].kind.Blocked? && n == first + k
  {
    if lines != [] {
      SkippedAre(lines[1..], first + 1, n);
      if n in Skipped(lines[1..], first + 1) {
        var k :| 0 <= k < |lines[1..]| && lines[1..][k].kind.Blocked? && n == first + 1 + k;
        assert lines[k + 1].kind.Blocked? && n == first + (k + 1);
      }
      forall k | 0 <= k < |lines| && lines[k].kind.Blocked? && n == first + k ensures n in Skipped(lines, first) {
        if k > 0 { assert lines[1..][k - 1] == lines[k] && n == first + 1 + (k - 1); }
      }
    }
  }

  /** Line k of the region cannot be toggled. */
  ghost predicate BlockedAt(t: Str, ranges: seq<Range>, start: nat, raws: seq<Str>, k: nat)
    requires k < |raws|
  {
    CannotToggle(t, ranges, start + Offset(raws, k), WithoutReturn(raws[k]))
  }

  lemma {:induction false} BlockedLine(t: Str, ranges: seq<Range>, kindAt: KindAt, start: nat, raws: seq<Str>, k: nat)
    requires k < |raws| && kindAt == KindsOf(t, ranges)
    ensures LinesFrom(kindAt, start, raws)[k].kind.Blocked? <==> BlockedAt(t, ranges, start, raws, k)
  {
    LinesFromAt(kindAt, start, raws, k);
    BlockedKind(t, ranges, start + Offset(raws, k), WithoutReturn(raws[k]));
  }

  /** The numbers reported are those of the lines of the region that cannot be toggled. */
  lemma {:induction false} SkippedLines(scan: Scanner, unclosed: Str -> int, t: Str, start: nat, end: nat, a: nat,
        b: nat, raws: seq<Str>, first: nat, n: nat)
    requires start <= end <= |t| && LineToggle(scan, unclosed, t, start, end, a, b).status != Refused
    requires raws == SplitLines(t[start..end]) && first == LineNumber(t, start)
    ensures n in LineToggle(scan, unclosed, t, start, end, a, b).skipped <==>
      exists k :: 0 <= k < |raws| && BlockedAt(t, scan(t), start, raws, k) && n == first + k
  {
    ToggleSkips(scan, unclosed, t, start, end, a, b, raws, first);
    SkippedBlocked(t, scan(t), KindsOf(t, scan(t)), start, raws, first, n);
  }

  lemma {:induction false} SkippedBlocked(t: Str, ranges: seq<Range>, kindAt: KindAt, start: nat, raws: seq<Str>,
        first: nat, n: nat)
    requires kindAt == KindsOf(t, ranges)
    ensures n in Skipped(LinesFrom(kindAt, start, raws), first) <==>
      exists k :: 0 <= k < |raws| && BlockedAt(t, ranges, start, raws, k) && n == first + k
  {
    var lines := LinesFrom(kindAt, start, raws);
    SkippedAre(lines, first, n);
    forall k | 0 <= k < |raws| ensures lines[k].kind.Blocked? <==> BlockedAt(t, ranges, start, raws, k) {
      BlockedLine(t, ranges, kindAt, start, raws, k);
    }
  }

  lemma {:induction false} ToggleSkips(scan: Scanner, unclosed: Str -> int, t: Str, start: nat, end: nat, a: nat,
        b: nat, raws: seq<Str>, first: nat)
    requires start <= end <= |t| && LineToggle(scan, unclosed, t, start, end, a, b).status != Refused
    requires raws == SplitLines(t[start..end]) && first == LineNumber(t, start)
    ensures LineToggle(scan, unclosed, t, start, end, a, b).skipped
         == Skipped(LinesFrom(KindsOf(t, scan(t)), start, raws), first)
  {
    LineEditsOrdered(t, scan(t), start, end);
  }
}
