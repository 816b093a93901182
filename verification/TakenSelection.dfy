/** Where the selection is after a press that takes comments off, line by line. */
module TakenSelection {
  import opened Text
  import opened EditCalculus
  import opened LineCalculus
  import opened CommentToggle
  import opened ToggleRoundTrip
  import opened ToggleTheorem
  import opened LineForms
  import opened PressedText

  // ----- deletions, line by line ---------------------------------------------------------------------------

  ghost predicate DeletingPair(es: seq<Edit>) {
    es == [] || (|es| == 2 && es[0].ins == [] && es[1].ins == [] && es[0].del > 0 && es[1].del > 0)
  }

  ghost predicate Deleting(pairs: seq<seq<Edit>>) {
    forall i :: 0 <= i < |pairs| ==> DeletingPair(pairs[i])
  }

  /** Nothing of it is before lo. */
  ghost predicate Behind(edits: seq<Edit>, lo: nat) {
    edits == [] || (edits[0].del > 0 && lo <= edits[0].pos)
  }

  ghost function Deleted(es: seq<Edit>): nat { if |es| == 2 then es[0].del + es[1].del else 0 }

  lemma {:induction false} ByLineBehind(raws: seq<Str>, ls: nat, pairs: seq<seq<Edit>>)
    requires ByLine(pairs, raws, ls) && Deleting(pairs)
    ensures Behind(Flat(pairs), ls)
    decreases |raws|
  {
    if raws != [] { ByLineBehind(raws[1..], ls + |raws[0]| + 1, pairs[1..]); }
  }

  lemma {:induction false} DeletePair(p: nat, es: seq<Edit>, rest: seq<Edit>, lo: nat, hi: nat, after: After)
    requires lo <= hi && Pair(es, lo, hi) && DeletingPair(es) && Behind(rest, hi + 1)
    ensures p <= hi ==> MapPos(p, es + rest, after) == MapPos(p, es, after)
    ensures p > hi ==> MapPos(p, es + rest, after) == MapPos(p, rest, after) - Deleted(es)
  {
    assert p <= hi ==> MapPos(p, rest, after) == p;
    if es == [] {
      assert es + rest == rest;
    } else {
      var all := es + rest;
      assert all[1..] == [es[1]] + rest;
      OneDeletion(p, es[1], rest, after);
      OneDeletion(p, es[1], [], after);
      assert es[1..] == [es[1]] + [];
    }
  }

  lemma {:induction false} OneDeletion(p: int, e: Edit, rest: seq<Edit>, after: After)
    requires e.del > 0 && e.ins == []
    ensures MapPos(p, [e] + rest, after)
         == if p >= e.pos + e.del then MapPos(p, rest, after) - e.del else if p > e.pos then e.pos else p
  {
    assert ([e] + rest)[1..] == rest;
  }

  lemma {:induction false} ShorterBy(raw: Str, ls: nat, es: seq<Edit>)
    requires Pair(es, ls, ls + |raw|) && DeletingPair(es)
    ensures |EditLine(raw, ls, es)| == |raw| - Deleted(es)
  {
  }

  /** A position in line k moves by its own line's deletions and by what went out of the lines before. */
  lemma {:induction false} PlaceByLine(raws: seq<Str>, ls: nat, pairs: seq<seq<Edit>>, k: nat, p: nat, after: After)
    requires ByLine(pairs, raws, ls) && Deleting(pairs) && k < |raws|
    requires ls + Offset(raws, k) <= p <= ls + Offset(raws, k) + |raws[k]|
    ensures MapPos(p, Flat(pairs), after) == MapPos(p, pairs[k], after) +
      Offset(EditLines(raws, ls, pairs), k) - Offset(raws, k)
    decreases k
  {
    var le := ls + |raws[0]|;
    ByLineBehind(raws[1..], le + 1, pairs[1..]);
    DeletePair(p, pairs[0], Flat(pairs[1..]), ls, le, after);
    if k > 0 {
      PlaceByLine(raws[1..], le + 1, pairs[1..], k - 1, p, after);
      ShorterBy(raws[0], ls, pairs[0]);
      assert EditLines(raws, ls, pairs)[1..] == EditLines(raws[1..], le + 1, pairs[1..]);
    }
  }

  // ----- one line ------------------------------------------------------------------------------------------

  /** How many of the units before j stay when a comment of that shape comes off. */
  function Staying(sh: Shape, j: nat): nat {
    var i, s := |sh.left|, |sh.left| + 4 + |sh.x|;
    var e := s + |sh.core|;
    var c := e + |sh.y| + 3;
    if j <= i then j else if j <= s then i else if j <= e then i + (j - s) else if j <= c then i + |sh.core|
    else i + |sh.core| + (j - c)
  }

  lemma {:induction false} MapOff(ls: nat, sh: Shape, j: nat, after: After)
    ensures MapPos(ls + j, OffEdits(ls, sh), after) == ls + Staying(sh, j)
  {
    var es := OffEdits(ls, sh);
    OneDeletion(ls + j, es[0], [es[1]], after);
    OneDeletion(ls + j, es[1], [], after);
    assert [es[1]] == [es[1]] + [] && es == [es[0]] + [es[1]];
  }

  /** Unit j of a line is unit m of the line as it is after the press. */
  ghost predicate UnitMoved(t: Str, ranges: seq<Range>, ls: nat, body: Str, j: nat, m: int) {
    if LeftAlone(t, ranges, ls, body) || (forall sh: Shape :: sh.Valid() ==> sh.Whole() != body) then m == j
    else forall sh: Shape :: sh.Valid() && sh.Whole() == body ==> m == Staying(sh, j)
  }

  lemma {:induction false} UnitMoves(t: Str, ranges: seq<Range>, l: Line, j: nat, after: After, m: int)
    requires l.kind == KindOf(t, ranges, l.ls, l.body)
    requires m == MapPos(l.ls + j, EditsOfLine(l, false), after) - l.ls
    ensures UnitMoved(t, ranges, l.ls, l.body, j, m)
  {
    CommentedKind(t, ranges, l.ls, l.body);
    OneCommentShape(l.body);
    if l.kind.Commented? {
      forall sh: Shape | sh.Valid() && sh.Whole() == l.body ensures m == Staying(sh, j) {
        UncommentMoves(l, sh, j, after, m);
      }
    }
  }

  lemma {:induction false} UncommentMoves(l: Line, sh: Shape, j: nat, after: After, m: int)
    requires sh.Valid() && sh.Whole() == l.body && MatchOneLine(l.body).OneLine? && l.kind.Commented?
    requires m == MapPos(l.ls + j, EditsOfLine(l, false), after) - l.ls
    ensures m == Staying(sh, j)
  {
    UncommentIs(l, sh);
    MapOff(l.ls, sh, j, after);
  }

  lemma {:induction false} LineDeletes(l: Line)
    ensures DeletingPair(EditsOfLine(l, false))
  {
  }

  lemma {:induction false} LinesDelete(lines: seq<Line>)
    ensures Deleting(Pairs(lines, false))
  {
    forall k | 0 <= k < |lines| ensures DeletingPair(Pairs(lines, false)[k]) {
      PairsAt(lines, false, k);
      LineDeletes(lines[k]);
    }
  }

  // ----- the region ----------------------------------------------------------------------------------------

  /** For the line at an index and its text: whether unit j of it is unit m of what it becomes. */
  type Moving = (nat, Str, nat, int) -> bool

  ghost function MovingIn(t: Str, ranges: seq<Range>): Moving {
    (ls: nat, body: Str, j: nat, m: int) => UnitMoved(t, ranges, ls, body, j, m)
  }

  lemma {:induction false} MovesIn(t: Str, ranges: seq<Range>, kindAt: KindAt, ls: nat, l: Line, raw: Str, j: nat,
        side: After, m: int)
    requires kindAt == KindsOf(t, ranges) && LineFits(l, raw, ls) && l.kind == kindAt(ls, l.body)
    requires m == MapPos(ls + j, EditsOfLine(l, false), side) - ls
    ensures MovingIn(t, ranges)(ls, WithoutReturn(raw), j, m)
  {
    UnitMoves(t, ranges, l, j, side, m);
  }

  lemma {:induction false} LineMoves(t: Str, ranges: seq<Range>, kindAt: KindAt, lines: seq<Line>, start: nat,
        raws: seq<Str>, ls: nat, k: nat, j: nat, side: After, m: int)
    requires kindAt == KindsOf(t, ranges) && lines == LinesFrom(kindAt, start, raws) && Fits(lines, raws, start)
    requires k < |raws| && ls == start + Offset(raws, k)
    requires m == MapPos(ls + j, EditsOfLine(lines[k], false), side) - ls
    ensures MovingIn(t, ranges)(ls, WithoutReturn(raws[k]), j, m)
  {
    FitsAt(lines, raws, start, k);
    KindAtLine(kindAt, start, raws, k, ls, lines[k]);
    MovesIn(t, ranges, kindAt, ls, lines[k], raws[k], j, side, m);
  }

  /** Unit j of line k is unit m of what it becomes, and that is p in the note after. */
  ghost predicate UnitGoes(moving: Moving, raws: seq<Str>, start: nat, after: seq<Str>, k: nat, j: nat, p: int,
        m: int)
    requires k < |raws| == |after|
  {
    p == start + Offset(after, k) + m && moving(start + Offset(raws, k), WithoutReturn(raws[k]), j, m)
  }

  lemma {:induction false} UnitGoesTo(t: Str, ranges: seq<Range>, kindAt: KindAt, lines: seq<Line>, start: nat,
        raws: seq<Str>, after: seq<Str>, k: nat, j: nat, side: After, ls: nat, p: int, m: int)
    requires kindAt == KindsOf(t, ranges) && lines == LinesFrom(kindAt, start, raws) && Fits(lines, raws, start)
    requires after == LinesAfter(lines, raws, start, false) && k < |raws| && ls == start + Offset(raws, k)
    requires j <= |raws[k]| && p == MapPos(ls + j, EditsOf(lines, false), side)
    requires m == MapPos(ls + j, EditsOfLine(lines[k], false), side) - ls
    ensures UnitGoes(MovingIn(t, ranges), raws, start, after, k, j, p, m)
  {
    LineMoves(t, ranges, kindAt, lines, start, raws, ls, k, j, side, m);
    PlaceGoes(MovingIn(t, ranges), lines, raws, start, after, ls, k, j, side, p, m);
  }

  lemma {:induction false} PlaceGoes(moving: Moving, lines: seq<Line>, raws: seq<Str>, start: nat, after: seq<Str>,
        ls: nat, k: nat, j: nat, side: After, p: int, m: int)
    requires Fits(lines, raws, start) && after == LinesAfter(lines, raws, start, false) && k < |raws| && j <= |raws[k]|
    requires ls == start + Offset(raws, k) && p == MapPos(ls + j, EditsOf(lines, false), side)
    requires m == MapPos(ls + j, EditsOfLine(lines[k], false), side) - ls
    requires moving(ls, WithoutReturn(raws[k]), j, m)
    ensures UnitGoes(moving, raws, start, after, k, j, p, m)
  {
    LinePlaces(lines, start, raws, after, k, ls, j, side);
  }

  lemma {:induction false} LinePlaces(lines: seq<Line>, start: nat, raws: seq<Str>, after: seq<Str>, k: nat, ls: nat,
        j: nat, side: After)
    requires Fits(lines, raws, start) && after == LinesAfter(lines, raws, start, false)
    requires k < |raws| && j <= |raws[k]| && ls == start + Offset(raws, k)
    ensures MapPos(ls + j, EditsOf(lines, false), side)
         == MapPos(ls + j, EditsOfLine(lines[k], false), side) - ls + start + Offset(after, k)
  {
    PairsByLine(lines, raws, start, false);
    LinesDelete(lines);
    PairsFlat(lines, false);
    PairsAt(lines, false, k);
    PlaceByLine(raws, start, Pairs(lines, false), k, ls + j, side);
  }

  lemma {:induction false} ToggleMaps(scan: Scanner, unclosed: Str -> int, t: Str, start: nat, end: nat, a: nat, b: nat)
    requires start <= end <= |t| && LineToggle(scan, unclosed, t, start, end, a, b).status == Uncommented
    ensures var r := LineToggle(scan, unclosed, t, start, end, a, b);
      (r.selStart, r.selEnd) == MapSelection(a, b, EditsOf(RegionLines(t, scan(t), start, end), false))
  {
    LineEditsOrdered(t, scan(t), start, end);
  }

  /** Unit j of line k of the region before is p in the note after. */
  ghost predicate PlacedAt(moving: Moving, raws: seq<Str>, start: nat, after: seq<Str>, k: nat, j: nat, p: int)
    requires k < |raws| == |after|
  {
    exists m: int :: UnitGoes(moving, raws, start, after, k, j, p, m)
  }

  /**
    After a press that takes comments off, both ends of the selection have the units that stay before them: a place
    in a line that is left alone is where it was in it, and one inside what went is where that was.
   */
  lemma {:induction false} SelectionTaken(scan: Scanner, unclosed: Str -> int, t: Str, a: nat, b: nat, start: nat,
        end: nat, raws: seq<Str>, k: nat, j: nat, k2: nat, j2: nat)
    returns (after: seq<Str>)
    requires a <= b <= |t| && ToggleLineStyle(scan, unclosed, t, a, b).status == Uncommented
    requires start == LineStart(t, a) && end == TouchedEnd(t, a, b) && raws == SplitLines(t[start..end])
    requires k < |raws| && j <= |raws[k]| && a == start + Offset(raws, k) + j
    requires k2 < |raws| && j2 <= |raws[k2]| && b == start + Offset(raws, k2) + j2
    ensures var r := ToggleLineStyle(scan, unclosed, t, a, b);
      && r.start == start && r.end == end && after != [] && r.replacement == JoinLines(after)
      && AllBecome(t, scan(t), start, raws, after, false)
      && PlacedAt(MovingIn(t, scan(t)), raws, start, after, k, j, r.selStart)
      && PlacedAt(MovingIn(t, scan(t)), raws, start, after, k2, j2, r.selEnd)
  {
    RegionIs(t, a, b);
    StyleIsToggle(scan, unclosed, t, a, b);
    after := RegionTaken(scan, unclosed, t, start, end, a, b);
    ToggleMaps(scan, unclosed, t, start, end, a, b);
    var lines := RegionLines(t, scan(t), start, end);
    var sel := MapSelection(a, b, EditsOf(lines, false));
    var first, last := if a == b then AtOpen else Never, if a == b then AtOpen else Always;
    SidesOf(a, b, EditsOf(lines, false), sel, first, last);
    EndGoes(t, scan(t), KindsOf(t, scan(t)), lines, start, raws, after, a, k, j, first, sel.0);
    EndGoes(t, scan(t), KindsOf(t, scan(t)), lines, start, raws, after, b, k2, j2, last, sel.1);
  }

  lemma {:induction false} EndGoes(t: Str, ranges: seq<Range>, kindAt: KindAt, lines: seq<Line>, start: nat,
        raws: seq<Str>, after: seq<Str>, at: nat, k: nat, j: nat, side: After, p: int)
    requires kindAt == KindsOf(t, ranges) && lines == LinesFrom(kindAt, start, raws) && Fits(lines, raws, start)
    requires after == LinesAfter(lines, raws, start, false) && k < |raws| && j <= |raws[k]|
    requires at == start + Offset(raws, k) + j && p == MapPos(at, EditsOf(lines, false), side)
    ensures PlacedAt(MovingIn(t, ranges), raws, start, after, k, j, p)
  {
    var ls := start + Offset(raws, k);
    var m := MapPos(ls + j, EditsOfLine(lines[k], false), side) - ls;
    UnitGoesTo(t, ranges, kindAt, lines, start, raws, after, k, j, side, ls, p, m);
  }

  lemma {:induction false} SidesOf(a: nat, b: nat, edits: seq<Edit>, sel: (int, int), first: After, last: After)
    requires sel == MapSelection(a, b, edits)
    requires first == (if a == b then AtOpen else Never) && last == (if a == b then AtOpen else Always)
    ensures sel.0 == MapPos(a, edits, first) && sel.1 == MapPos(b, edits, last)
  {
  }

  /** The lines, and the text they make. */
  lemma {:induction false} RegionTaken(scan: Scanner, unclosed: Str -> int, t: Str, start: nat, end: nat, a: nat,
        b: nat)
    returns (after: seq<Str>)
    requires start <= end <= |t| && LineToggle(scan, unclosed, t, start, end, a, b).status == Uncommented
    ensures var raws, lines := SplitLines(t[start..end]), RegionLines(t, scan(t), start, end);
      && Fits(lines, raws, start) && after == LinesAfter(lines, raws, start, false)
      && AllBecome(t, scan(t), start, raws, after, false)
    ensures after != [] && LineToggle(scan, unclosed, t, start, end, a, b).replacement == JoinLines(after)
  {
    var ranges, raws := scan(t), SplitLines(t[start..end]);
    var lines := RegionLines(t, ranges, start, end);
    ToggleDid(scan, unclosed, t, start, end, a, b);
    JoinSplit(t[start..end]);
    KindsSound(t, ranges);
    LinesFit(KindsOf(t, ranges), start, raws);
    ApplyLines(t, lines, raws, start, end, false);
    after := LinesAfter(lines, raws, start, false);
    LinesBecome(t, ranges, start, raws, lines, false);
  }
}
