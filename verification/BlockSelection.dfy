/** Where the selection is after a press in the block style. */
module BlockSelection {
  import opened Text
  import opened EditCalculus
  import opened CommentToggle
  import opened CommentBlock
  import opened BlockTheorem
  import opened BlockPressed
  import opened TakenSelection

  // ----- one comment put around a text ---------------------------------------------------------------------

  /** Where p goes when "<!-- " comes at s and " -->" at e; a place right there goes behind it when that is asked. */
  function Wrapped(s: nat, e: nat, p: nat, behindOpening: bool, behindEnd: bool): nat {
    var opening := if p > s || (p == s && behindOpening) then 5 else 0;
    p + opening + if p > e || (p == e && behindEnd) then 4 else 0
  }

  lemma {:induction false} WrapCarries(s: nat, e: nat, p: nat, after: After, atOpening: bool, atEnd: bool)
    requires s < e && after(BlockComment(s, e)[0]) == atOpening && after(BlockComment(s, e)[1]) == atEnd
    ensures MapPos(p, BlockComment(s, e), after) == Wrapped(s, e, p, atOpening, atEnd)
  {
    var d, c := BlockComment(s, e)[0], BlockComment(s, e)[1];
    assert BlockComment(s, e)[1..] == [c] && [c][1..] == [];
    assert MapPos(p, [c], after) == if p > c.pos || (p == c.pos && atEnd) then 4 + p else p;
  }

  /**
    A caret stands before the unit it stood before, behind the opening and before the end; a selection that starts or
    ends where one of them is written holds it.
   */
  lemma {:induction false} SelectionWrapped(scan: Scanner, unclosed: Str -> int, t: Str, a: nat, b: nat, start: nat,
        end: nat, left: Str, core: Str, right: Str, s: nat, e: nat, r: Toggle)
    requires a <= b <= |t| && r == ToggleBlockStyle(scan, unclosed, t, a, b) && r.status == CommentedOut
    requires start == LineStart(t, a) && end == TouchedEnd(t, a, b) && t[start..end] == left + (core + right)
    requires AllSpace(left) && AllSpace(right) && core != [] && !IsSpace(core[0]) && !IsSpace(core[|core| - 1])
    requires s == start + |left| && e == s + |core|
    ensures a == b ==> r.selStart == r.selEnd == Wrapped(s, e, a, true, false)
    ensures a < b ==> r.selStart == Wrapped(s, e, a, false, false) && r.selEnd == Wrapped(s, e, b, true, true)
  {
    var first, last, inner, edits := PressDid(scan, unclosed, t, a, b, start, end, r);
    DidEnds(DeletionsOf(), t, a, b, start, end, r, first, last, inner, edits, left, core, right, s);
  }

  lemma {:induction false} DidEnds(off: Deletions, t: Str, a: nat, b: nat, start: nat, end: nat, r: Toggle, first: nat,
        last: nat, inner: Str, edits: seq<Edit>, left: Str, core: Str, right: Str, s: nat)
    requires Did(off, t, start, end, r, first, last, inner, edits) && r.status == CommentedOut
    requires t[start..end] == left + (core + right) && s == start + |left|
    requires AllSpace(left) && AllSpace(right) && core != [] && !IsSpace(core[0]) && !IsSpace(core[|core| - 1])
    requires (r.selStart, r.selEnd) == MapSelection(a, b, edits)
    ensures a == b ==> r.selStart == r.selEnd == Wrapped(s, s + |core|, a, true, false)
    ensures a < b ==>
      r.selStart == Wrapped(s, s + |core|, a, false, false) && r.selEnd == Wrapped(s, s + |core|, b, true, true)
  {
    DidAround(off, t, start, end, r, first, last, inner, edits, left, core, right);
    PressEnds(s, s + |core|, a, b, edits, r);
  }

  lemma {:induction false} PressEnds(s: nat, e: nat, a: nat, b: nat, edits: seq<Edit>, r: Toggle)
    requires s < e && edits == BlockComment(s, e) && (r.selStart, r.selEnd) == MapSelection(a, b, edits)
    ensures a == b ==> r.selStart == r.selEnd == Wrapped(s, e, a, true, false)
    ensures a < b ==> r.selStart == Wrapped(s, e, a, false, false) && r.selEnd == Wrapped(s, e, b, true, true)
  {
    EndsWrapped(s, e, a, b, edits, (r.selStart, r.selEnd));
  }

  lemma {:induction false} EndsWrapped(s: nat, e: nat, a: nat, b: nat, edits: seq<Edit>, sel: (int, int))
    requires s < e && edits == BlockComment(s, e) && sel == MapSelection(a, b, edits)
    ensures a == b ==> sel.0 == sel.1 == Wrapped(s, e, a, true, false)
    ensures a < b ==> sel.0 == Wrapped(s, e, a, false, false) && sel.1 == Wrapped(s, e, b, true, true)
  {
    WrapCarries(s, e, a, AtOpen, true, false);
    WrapCarries(s, e, a, Never, false, false);
    WrapCarries(s, e, b, Always, true, true);
  }

  lemma {:induction false} DidAround(off: Deletions, t: Str, start: nat, end: nat, r: Toggle, first: nat, last: nat,
        inner: Str, edits: seq<Edit>, left: Str, core: Str, right: Str)
    requires Did(off, t, start, end, r, first, last, inner, edits) && r.status == CommentedOut
    requires t[start..end] == left + (core + right)
    requires AllSpace(left) && AllSpace(right) && core != [] && !IsSpace(core[0]) && !IsSpace(core[|core| - 1])
    ensures edits == BlockComment(start + |left|, start + |left| + |core|)
  {
    var region := left + (core + right);
    CoreOf(left, core, right, region);
    CoreSame(region, first, last, inner, |left|, |left| + |core|, core);
  }

  // ----- one comment taken off -----------------------------------------------------------------------------

  /** How many of the first j units of a region stay when a comment of that shape comes off. */
  function Kept(bs: BlockShape, j: nat): nat {
    var i := |bs.left|;
    var from := i + 4 + |bs.f|;
    var to, end := from + |bs.mid|, i + |bs.comment|;
    if j <= i then j else if j <= from then i else if j <= to then i + (j - from) else if j <= end then i + |bs.mid|
    else i + |bs.mid| + (j - end)
  }

  lemma {:induction false} CutMoves(s: nat, from: nat, to: nat, n: nat, p: nat, after: After)
    requires 0 < from <= to < n
    ensures MapPos(p, CutEdits(s, from, to, n), after)
         == if p <= s then p else if p <= s + from then s else if p <= s + to then p - from
            else if p <= s + n then s + to - from else p - from - (n - to)
  {
    var es := CutEdits(s, from, to, n);
    OneDeletion(p, es[0], [es[1]], after);
    OneDeletion(p, es[1], [], after);
    assert [es[1]] == [es[1]] + [] && es == [es[0]] + [es[1]];
  }

  /** Both ends of the selection have the units of the region that stay before them. */
  lemma {:induction false} SelectionUnwrapped(scan: Scanner, unclosed: Str -> int, t: Str, a: nat, b: nat, start: nat,
        end: nat, region: Str, bs: BlockShape)
    requires a <= b <= |t| && ToggleBlockStyle(scan, unclosed, t, a, b).status == Uncommented
    requires start == LineStart(t, a) && end == TouchedEnd(t, a, b) && region == t[start..end] && bs.Of(region)
    ensures start <= a
    ensures var r := ToggleBlockStyle(scan, unclosed, t, a, b);
      r.selStart == start + Kept(bs, a - start) && r.selEnd == start + Kept(bs, b - start)
  {
    CommentSize(bs);
    forall s ensures ShapeLaid(DeletionsOf(), region, bs, s) { ShapeIsLaid(region, bs, s); }
    LaidMoves(scan, unclosed, t, a, b, start, end, region, bs);
  }

  lemma {:induction false} LaidMoves(scan: Scanner, unclosed: Str -> int, t: Str, a: nat, b: nat, start: nat, end: nat,
        region: Str, bs: BlockShape)
    requires a <= b <= |t| && ToggleBlockStyle(scan, unclosed, t, a, b).status == Uncommented
    requires start == LineStart(t, a) && end == TouchedEnd(t, a, b) && region == t[start..end]
    requires 4 + |bs.f| + |bs.mid| < |bs.comment| && forall s :: ShapeLaid(DeletionsOf(), region, bs, s)
    ensures start <= a
    ensures var r := ToggleBlockStyle(scan, unclosed, t, a, b);
      r.selStart == start + Kept(bs, a - start) && r.selEnd == start + Kept(bs, b - start)
  {
    var r := ToggleBlockStyle(scan, unclosed, t, a, b);
    var first, last, inner, edits := PressDid(scan, unclosed, t, a, b, start, end, r);
    DidCut(DeletionsOf(), t, start, end, r, first, last, inner, edits, region, bs);
    EndsKept(bs, start, a, b, edits, (r.selStart, r.selEnd));
  }

  lemma {:induction false} EndsKept(bs: BlockShape, start: nat, a: nat, b: nat, edits: seq<Edit>, sel: (int, int))
    requires 4 + |bs.f| + |bs.mid| < |bs.comment| && start <= a <= b && sel == MapSelection(a, b, edits)
    requires edits == CutEdits(start + |bs.left|, 4 + |bs.f|, 4 + |bs.f| + |bs.mid|, |bs.comment|)
    ensures sel == (start + Kept(bs, a - start), start + Kept(bs, b - start))
  {
    KeptPlace(bs, start, a, edits, if a == b then AtOpen else Never);
    KeptPlace(bs, start, b, edits, if a == b then AtOpen else Always);
  }

  lemma {:induction false} CommentSize(bs: BlockShape)
    requires bs.Valid()
    ensures 4 + |bs.f| + |bs.mid| < |bs.comment|
  {
  }

  lemma {:induction false} DidCut(off: Deletions, t: Str, start: nat, end: nat, r: Toggle, first: nat, last: nat,
        inner: Str, edits: seq<Edit>, region: Str, bs: BlockShape)
    requires Did(off, t, start, end, r, first, last, inner, edits) && r.status == Uncommented && region == t[start..end]
    requires ShapeLaid(off, region, bs, start + first)
    ensures 4 + |bs.f| + |bs.mid| <= |bs.comment|
    ensures edits == CutEdits(start + |bs.left|, 4 + |bs.f|, 4 + |bs.f| + |bs.mid|, |bs.comment|)
  {
    CoreSame(region, first, last, inner, |bs.left|, |bs.left| + |bs.comment|, bs.comment);
  }

  lemma {:induction false} KeptPlace(bs: BlockShape, start: nat, p: nat, edits: seq<Edit>, after: After)
    requires 4 + |bs.f| + |bs.mid| < |bs.comment| && start <= p
    requires edits == CutEdits(start + |bs.left|, 4 + |bs.f|, 4 + |bs.f| + |bs.mid|, |bs.comment|)
    ensures MapPos(p, edits, after) == start + Kept(bs, p - start)
  {
    CutMoves(start + |bs.left|, 4 + |bs.f|, 4 + |bs.f| + |bs.mid|, |bs.comment|, p, after);
  }
}
