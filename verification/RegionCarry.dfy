/**
  The selection after an edit that only inserts: it touches the same lines, so a second key press works on the
  text the first one wrote.
 */
module RegionCarry {
  import opened Text
  import opened EditCalculus
  import opened CommentToggle

  /** A text and what insertions into its region [start, end), none of them a break, make of it. */
  datatype Grown = Grown(t: Str, start: nat, end: nat, edits: seq<Edit>, t2: Str) {
    ghost predicate Valid() {
      && start <= end <= |t| && Ordered(edits, start, end) && Ordered(edits, 0, |t|)
      && Insertions(edits, start) && Insertions(edits, 0) && InsertsNoBreak(edits)
      && t2 == Apply(t, 0, |t|, edits) && t2 == Edited(t, start, end, edits)
    }

    /** Where the region ends in the new text. */
    ghost function End2(): nat { end + Inserted(edits) }
  }

  lemma {:induction false} GrownBy(t: Str, start: nat, end: nat, edits: seq<Edit>)
    requires start <= end <= |t| && Ordered(edits, start, end) && Insertions(edits, start) && InsertsNoBreak(edits)
    ensures Grown(t, start, end, edits, Edited(t, start, end, edits)).Valid()
    ensures start + |Apply(t, start, end, edits)| == end + Inserted(edits)
  {
    EditedWhole(t, start, end, edits);
    InsertionsWeaken(edits, start, 0);
    AppliedLength(t, start, end, edits);
  }

  // ----- the mapped selection touches the same lines ------------------------------------------------------

  lemma {:induction false} PastAll(edits: seq<Edit>, lo: nat, hi: nat, p: nat, after: After)
    requires lo <= hi && Ordered(edits, lo, hi) && Insertions(edits, lo)
    requires p > hi || (p == hi && forall e: Edit :: after(e))
    ensures MapPos(p, edits, after) == p + Inserted(edits)
    decreases |edits|
  {
    if edits != [] {
      InsertionsWeaken(edits[1..], edits[0].pos + 1, edits[0].pos);
      PastAll(edits[1..], edits[0].pos, hi, p, after);
    }
  }

  lemma {:induction false} EndTwo(g: Grown)
    requires g.Valid()
    ensures g.End2() == g.start + |Apply(g.t, g.start, g.end, g.edits)| == MapPos(g.end, g.edits, Always)
    ensures |g.t2| == |g.t| + Inserted(g.edits) && g.End2() <= |g.t2|
    ensures g.End2() < |g.t2| <==> g.end < |g.t|
    ensures g.end < |g.t| ==> g.t2[g.End2()] == g.t[g.end]
    ensures forall k :: 0 <= k < g.start ==> g.t2[k] == g.t[k]
    ensures MapPos(g.start, g.edits, Never) == g.start
  {
    AppliedLength(g.t, g.start, g.end, g.edits);
    PastAll(g.edits, g.start, g.end, g.end, Always);
    UntouchedBefore(g.edits, g.start, g.start, Never);
    var a, b, c := g.t[..g.start], Apply(g.t, g.start, g.end, g.edits), g.t[g.end..];
    assert g.t2 == a + b + c && |a + b + c| == |a| + |b| + |c|;
    assert g.end < |g.t| ==> (a + b + c)[|a| + |b|] == c[0];
    assert forall k :: 0 <= k < g.start ==> (a + b + c)[k] == a[k];
  }

  /** No break between the mapped ends of a stretch without breaks. */
  lemma {:induction false} QuietStretch(g: Grown, p: nat, q: nat, left: After, right: After, lo: nat, hi: nat)
    requires g.Valid() && p <= q <= |g.t| && forall i :: p <= i < q ==> g.t[i] != LF
    requires MapPos(p, g.edits, left) <= lo && hi <= MapPos(q, g.edits, right) && hi <= |g.t2|
    ensures forall k :: lo <= k < hi ==> g.t2[k] != LF
  {
    forall k | lo <= k < hi ensures g.t2[k] != LF {
      StretchStaysOnLine(g.t, 0, |g.t|, g.edits, p, q, left, right, k);
    }
  }

  lemma {:induction false} RegionTwoStart(g: Grown, a: nat, after: After)
    requires g.Valid() && a <= g.end && g.start == LineStart(g.t, a)
    ensures g.start <= MapPos(a, g.edits, after) <= |g.t2|
    ensures LineStart(g.t2, MapPos(a, g.edits, after)) == g.start
  {
    var a2 := MapPos(a, g.edits, after);
    EndTwo(g);
    MapPosInside(g.t, 0, |g.t|, g.edits, a, after);
    MapPosFloor(g.edits, g.start, g.end, a, after);
    QuietStretch(g, g.start, a, Never, after, g.start, a2);
    LineStartIs(g.t2, a2, g.start);
  }

  /** From a mapped position in the last line, the next break is the end of the new region. */
  lemma {:induction false} RegionTwoEnd(g: Grown, p: nat, after: After)
    requires g.Valid() && g.start <= p <= g.end && g.end == NextBreak(g.t, p)
    ensures 0 <= MapPos(p, g.edits, after) <= g.End2() <= |g.t2|
    ensures NextBreak(g.t2, MapPos(p, g.edits, after)) == g.End2()
  {
    EndTwo(g);
    MapPosMonotone(g.edits, g.start, g.end, p, g.end, after, Always);
    MapPosFloor(g.edits, g.start, g.end, p, after);
    QuietStretch(g, p, g.end, after, Always, MapPos(p, g.edits, after), g.End2());
    BreakIs(g.t2, MapPos(p, g.edits, after), g.End2());
  }

  /** A selection end that is not at the start of a line is not after the edits either. */
  lemma {:induction false} InnerEndTwo(g: Grown, b: nat)
    requires g.Valid() && g.start <= b <= g.end && LineStart(g.t, b) < b
    ensures 0 < MapPos(b, g.edits, Always) <= |g.t2| &&
      LineStart(g.t2, MapPos(b, g.edits, Always)) < MapPos(b, g.edits, Always)
  {
    var b2 := MapPos(b, g.edits, Always);
    MapPosInside(g.t, 0, |g.t|, g.edits, b, Always);
    InsertionsStretch(g.edits, 0, b - 1, b, Always, Always);
    QuietStretch(g, b - 1, b, Always, Always, b2 - 1, b2);
    assert g.t2[b2 - 1] != LF;
  }

  /** A selection that ends at the start of the line behind the region still does. */
  lemma {:induction false} OuterEndTwo(g: Grown, b: nat)
    requires g.Valid() && g.end < |g.t| && b == g.end + 1 && g.t[g.end] == LF
    ensures MapPos(b, g.edits, Always) == g.End2() + 1 <= |g.t2|
    ensures LineStart(g.t2, g.End2() + 1) == g.End2() + 1
    ensures NextBreak(g.t2, g.End2()) == g.End2()
  {
    EndTwo(g);
    PastAll(g.edits, g.start, g.end, b, Always);
  }

  /** The mapped selection touches the same lines: it picks the region the first toggle wrote. */
  lemma {:induction false} RegionTwo(g: Grown, a: nat, b: nat)
    requires g.Valid() && a <= b <= |g.t| && g.start == LineStart(g.t, a) && g.end == RegionEnd(g.t, a, b)
    ensures var sel := MapSelection(a, b, g.edits);
      0 <= sel.0 <= sel.1 <= |g.t2| && LineStart(g.t2, sel.0) == g.start && RegionEnd(g.t2, sel.0, sel.1) == g.End2()
  {
    if a == b {
      RegionTwoStart(g, a, AtOpen);
      RegionTwoEnd(g, a, AtOpen);
    } else {
      RegionTwoStart(g, a, Never);
      InsertionsStretch(g.edits, 0, a, b, Never, Always);
      if b == LineStart(g.t, b) {
        OuterEndTwo(g, b);
      } else {
        InnerEndTwo(g, b);
        RegionTwoEnd(g, b, Always);
      }
    }
  }
}
