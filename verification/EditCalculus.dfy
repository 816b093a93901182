/**
  The edit calculus under comment toggling: a list of edits is applied to a range of a text, and positions
  of the old text are carried into the new one.
 */
module EditCalculus {
  import opened Text

  datatype EditKind = Open | Close

  /** Delete `del` units at `pos` and put `ins` there. */
  datatype Edit = Edit(pos: nat, del: nat, ins: Str, kind: EditKind)

  type After = Edit -> bool

  const Never: After := (e: Edit) => false
  const Always: After := (e: Edit) => true
  const AtOpen: After := (e: Edit) => e.kind.Open?

  /** Sorted, not overlapping, and all inside [lo, hi]. */
  ghost predicate Ordered(edits: seq<Edit>, lo: nat, hi: nat)
    requires lo <= hi
  {
    if edits == [] then true
    else lo <= edits[0].pos && edits[0].pos + edits[0].del <= hi && Ordered(edits[1..], edits[0].pos + edits[0].del, hi)
  }

  /** Insertions only, at strictly ascending points from lo on. */
  ghost predicate Insertions(edits: seq<Edit>, lo: nat) {
    if edits == [] then true
    else edits[0].del == 0 && edits[0].ins != [] && lo <= edits[0].pos && Insertions(edits[1..], edits[0].pos + 1)
  }

  ghost predicate InsertsNoBreak(edits: seq<Edit>) {
    if edits == [] then true else NoBreak(edits[0].ins) && InsertsNoBreak(edits[1..])
  }

  /** p falls on a unit that some edit deletes. */
  ghost predicate Deleted(p: nat, edits: seq<Edit>) {
    exists i :: 0 <= i < |edits| && edits[i].pos <= p < edits[i].pos + edits[i].del
  }

  // ----- the two functions of the calculus -----------------------------------------------------------------

  /** Carries a caret place p through the edits; `after` picks the side of an insertion made right at it. */
  function MapPos(p: int, edits: seq<Edit>, after: After): int {
    if edits == [] then p
    else
      var e, rest := edits[0], edits[1..];
      if e.del == 0 then
        if p > e.pos || (p == e.pos && after(e)) then |e.ins| + MapPos(p, rest, after)
        else if p < e.pos then p
        else MapPos(p, rest, after)
      else if p >= e.pos + e.del then |e.ins| - e.del + MapPos(p, rest, after)
      else if p > e.pos then e.pos
      else p
  }

  /** The text [start, end) with the edits in it. */
  function Apply(t: Str, start: nat, end: nat, edits: seq<Edit>): Str
    requires start <= end <= |t| && Ordered(edits, start, end)
    decreases |edits|
  {
    if edits == [] then t[start..end]
    else t[start..edits[0].pos] + (edits[0].ins + Apply(t, edits[0].pos + edits[0].del, end, edits[1..]))
  }

  /** The whole text after the edits of the range [start, end). */
  function Edited(t: Str, start: nat, end: nat, edits: seq<Edit>): Str
    requires start <= end <= |t| && Ordered(edits, start, end)
  {
    t[..start] + Apply(t, start, end, edits) + t[end..]
  }

  /** The selection after the edits: a caret moves with the text, a selection grows at its edges. */
  function MapSelection(a: nat, b: nat, edits: seq<Edit>): (int, int) {
    if a == b then (MapPos(a, edits, AtOpen), MapPos(a, edits, AtOpen))
    else (MapPos(a, edits, Never), MapPos(b, edits, Always))
  }

  // ----- the loops that compute them -----------------------------------------------------------------------

  method MapPosition(p: nat, edits: seq<Edit>, after: After) returns (r: int)
    ensures r == MapPos(p, edits, after)
  {
    var delta := 0;
    for i := 0 to |edits|
      invariant delta + MapPos(p, edits[i..], after) == MapPos(p, edits, after)
    {
      var e := edits[i];
      assert edits[i..][1..] == edits[i + 1..];
      if e.del == 0 {
        if p > e.pos || (p == e.pos && after(e)) {
          delta := delta + |e.ins|;
        } else if p < e.pos {
          return p + delta;
        }
      } else if p >= e.pos + e.del {
        delta := delta + |e.ins| - e.del;
      } else if p > e.pos {
        return e.pos + delta;
      } else {
        return p + delta;
      }
    }
    r := p + delta;
  }

  method ApplyEdits(t: Str, start: nat, end: nat, edits: seq<Edit>) returns (out: Str)
    requires start <= end <= |t| && Ordered(edits, start, end)
    ensures out == Apply(t, start, end, edits)
  {
    out := [];
    var pos := start;
    for i := 0 to |edits|
      invariant 0 <= pos <= end && Ordered(edits[i..], pos, end)
      invariant out + Apply(t, pos, end, edits[i..]) == Apply(t, start, end, edits)
    {
      assert edits[i..][1..] == edits[i + 1..];
      out := out + (t[pos..edits[i].pos] + edits[i].ins);
      pos := edits[i].pos + edits[i].del;
    }
    out := out + t[pos..end];
  }

  // ----- what the calculus promises ------------------------------------------------------------------------

  /** Every unit the edits do not delete is found again at its mapped position. */
  lemma {:induction false} SurvivorsMove(t: Str, start: nat, end: nat, edits: seq<Edit>, p: nat)
    requires start <= p < end <= |t| && Ordered(edits, start, end)
    requires !Deleted(p, edits)
    ensures start <= MapPos(p, edits, Always) < start + |Apply(t, start, end, edits)|
    ensures Apply(t, start, end, edits)[MapPos(p, edits, Always) - start] == t[p]
    decreases |edits|
  {
    if edits != [] {
      var e, rest := edits[0], edits[1..];
      NotDeletedLater(p, edits);
      var kept, tail := t[start..e.pos], Apply(t, e.pos + e.del, end, rest);
      PartOf(kept, e.ins, tail, Apply(t, start, end, edits), if p < e.pos then p - start else 0);
      if p >= e.pos {
        SurvivorsMove(t, e.pos + e.del, end, rest, p);
        PartOf(kept, e.ins, tail, Apply(t, start, end, edits), MapPos(p, rest, Always) - (e.pos + e.del));
        MapPosBehind(edits, p);
      } else {
        MapPosBefore(edits, p);
      }
    }
  }

  lemma {:induction false} MapPosBehind(edits: seq<Edit>, p: nat)
    requires edits != [] && p >= edits[0].pos + edits[0].del
    ensures MapPos(p, edits, Always) == |edits[0].ins| - edits[0].del + MapPos(p, edits[1..], Always)
  {
  }

  lemma {:induction false} MapPosBefore(edits: seq<Edit>, p: nat)
    requires edits != [] && p < edits[0].pos
    ensures MapPos(p, edits, Always) == p
  {
  }

  lemma {:induction false} PartOf(kept: Str, ins: Str, tail: Str, whole: Str, k: nat)
    requires whole == kept + (ins + tail)
    ensures k < |kept| ==> k < |whole| && whole[k] == kept[k]
    ensures k < |tail| ==> |kept| + |ins| + k < |whole| && whole[|kept| + |ins| + k] == tail[k]
  {
  }

  lemma NotDeletedLater(p: nat, edits: seq<Edit>)
    requires edits != [] && !Deleted(p, edits)
    ensures !Deleted(p, edits[1..])
    ensures !(edits[0].pos <= p < edits[0].pos + edits[0].del)
  {
    assert forall i :: 0 <= i < |edits| - 1 ==> edits[1..][i] == edits[i + 1];
  }

  /** Mapped positions stay inside the edited range. */
  lemma {:induction false} MapPosInside(t: Str, start: nat, end: nat, edits: seq<Edit>, p: nat, after: After)
    requires start <= p <= end <= |t| && Ordered(edits, start, end)
    ensures start <= MapPos(p, edits, after) <= start + |Apply(t, start, end, edits)|
    decreases |edits|
  {
    if edits != [] {
      var e, rest := edits[0], edits[1..];
      if p >= e.pos + e.del {
        MapPosInside(t, e.pos + e.del, end, rest, p, after);
      }
    }
  }

  lemma {:induction false} MapPosFloor(edits: seq<Edit>, lo: nat, hi: nat, p: nat, after: After)
    requires lo <= hi && Ordered(edits, lo, hi) && lo <= p
    ensures lo <= MapPos(p, edits, after)
    decreases |edits|
  {
    if edits != [] && p >= edits[0].pos + edits[0].del {
      MapPosFloor(edits[1..], edits[0].pos + edits[0].del, hi, p, after);
    }
  }

  /** Positions keep their order, whichever side of an insertion each of the two takes. */
  lemma {:induction false} MapPosMonotone(edits: seq<Edit>, lo: nat, hi: nat, p: nat, q: nat, left: After, right: After)
    requires lo <= hi && Ordered(edits, lo, hi)
    requires p < q || (p == q && forall e: Edit :: left(e) ==> right(e))
    ensures MapPos(p, edits, left) <= MapPos(q, edits, right)
    decreases |edits|
  {
    if edits != [] {
      var e, rest := edits[0], edits[1..];
      if q >= e.pos + e.del {
        MapPosFloor(rest, e.pos + e.del, hi, q, right);
        if p >= e.pos + e.del {
          MapPosMonotone(rest, e.pos + e.del, hi, p, q, left, right);
        }
      }
    }
  }

  lemma {:induction false} ApplyGap(t: Str, p: nat, q: nat, hi: nat, edits: seq<Edit>)
    requires p <= q <= hi <= |t| && Ordered(edits, q, hi)
    ensures Ordered(edits, p, hi)
    ensures Apply(t, p, hi, edits) == t[p..q] + Apply(t, q, hi, edits)
  {
    if edits == [] {
      assert t[p..hi] == t[p..q] + t[q..hi];
    } else {
      var e, tail := edits[0], Apply(t, edits[0].pos + edits[0].del, hi, edits[1..]);
      var a, b := t[p..q], t[q..e.pos];
      assert t[p..e.pos] == a + b;
      Associate(a, b, e.ins + tail);
    }
  }

  lemma {:induction false} ApplyExtend(t: Str, start: nat, end: nat, hi: nat, edits: seq<Edit>)
    requires start <= end <= hi <= |t| && Ordered(edits, start, end)
    ensures Ordered(edits, start, hi)
    ensures Apply(t, start, hi, edits) == Apply(t, start, end, edits) + t[end..hi]
    decreases |edits|
  {
    if edits == [] {
      SliceJoin(t, start, end, hi);
    } else {
      var e := edits[0];
      ApplyExtend(t, e.pos + e.del, end, hi, edits[1..]);
      var tail := Apply(t, e.pos + e.del, end, edits[1..]);
      Associate(t[start..e.pos], e.ins + tail, t[end..hi]);
      Associate(e.ins, tail, t[end..hi]);
    }
  }

  /** Editing a range of the text is editing the text. */
  lemma {:induction false} EditedWhole(t: Str, start: nat, end: nat, edits: seq<Edit>)
    requires start <= end <= |t| && Ordered(edits, start, end)
    ensures Ordered(edits, 0, |t|)
    ensures Edited(t, start, end, edits) == Apply(t, 0, |t|, edits)
  {
    ApplyExtend(t, start, end, |t|, edits);
    ApplyGap(t, 0, start, |t|, edits);
    Associate(t[..start], Apply(t, start, end, edits), t[end..]);
  }

  /**
    In the whole text every unit that no edit deletes is found at its mapped position, and both sides of the edited
    range are as they were.
   */
  lemma {:induction false} EditedKeeps(t: Str, start: nat, end: nat, edits: seq<Edit>)
    requires start <= end <= |t| && Ordered(edits, start, end)
    ensures var t2 := Edited(t, start, end, edits);
      forall p: nat :: p < |t| && !Deleted(p, edits) ==>
        0 <= MapPos(p, edits, Always) < |t2| && t2[MapPos(p, edits, Always)] == t[p]
    ensures var t2 := Edited(t, start, end, edits);
      var end2 := start + |Apply(t, start, end, edits)|;
      end2 <= |t2| && t2[..start] == t[..start] && t2[end2..] == t[end..] &&
        t2[start..end2] == Apply(t, start, end, edits)
  {
    var a, m, c := t[..start], Apply(t, start, end, edits), t[end..];
    assert |a + m + c| == |a| + |m| + |c|;
    assert (a + m + c)[..|a|] == a && (a + m + c)[|a| + |m|..] == c && (a + m + c)[|a|..|a| + |m|] == m;
    EditedWhole(t, start, end, edits);
    forall p: nat | p < |t| && !Deleted(p, edits)
      ensures 0 <= MapPos(p, edits, Always) < |a + m + c| && (a + m + c)[MapPos(p, edits, Always)] == t[p]
    {
      SurvivorsMove(t, 0, |t|, edits, p);
    }
  }

  /**
    A selection that starts in the edited range, wherever it ends, is mapped to one inside the new text, its ends in
    order; one that ends in the range too ends inside what the edits made of the range.
   */
  lemma {:induction false} SelectionInside(t: Str, start: nat, end: nat, edits: seq<Edit>, a: nat, b: nat)
    requires start <= end <= |t| && start <= a <= b <= |t| && Ordered(edits, start, end)
    ensures var sel := MapSelection(a, b, edits);
      && start <= sel.0 <= sel.1 <= |Edited(t, start, end, edits)|
      && (b <= end ==> sel.1 <= start + |Apply(t, start, end, edits)|)
  {
    EditedWhole(t, start, end, edits);
    var left, right := if a == b then AtOpen else Never, if a == b then AtOpen else Always;
    MapPosFloor(edits, start, end, a, left);
    MapPosMonotone(edits, start, end, a, b, left, right);
    MapPosInside(t, 0, |t|, edits, b, right);
    if b <= end { MapPosInside(t, start, end, edits, b, right); }
  }

  // ----- insertions and the deletions that take them back --------------------------------------------------

  /** The edits that take the insertions off again, placed in the text that has them (`delta` units went in before). */
  function Inverse(edits: seq<Edit>, delta: nat): seq<Edit> {
    if edits == [] then []
    else [Edit(edits[0].pos + delta, |edits[0].ins|, [], edits[0].kind)] + Inverse(edits[1..], delta + |edits[0].ins|)
  }

  /** How much the insertions add. */
  function Inserted(edits: seq<Edit>): nat {
    if edits == [] then 0 else |edits[0].ins| + Inserted(edits[1..])
  }

  /** Insertions only push positions apart. */
  lemma {:induction false} InsertionsStretch(edits: seq<Edit>, lo: nat, p: nat, q: nat, left: After, right: After)
    requires Insertions(edits, lo)
    requires p < q || (p == q && forall e: Edit :: left(e) ==> right(e))
    ensures MapPos(q, edits, right) - MapPos(p, edits, left) >= q - p
    ensures p <= MapPos(p, edits, left) && q <= MapPos(q, edits, right) <= q + Inserted(edits)
  {
    if edits != [] {
      InsertionsStretch(edits[1..], edits[0].pos + 1, p, q, left, right);
    }
  }

  /** A position carried through the insertions and then through their inverse comes back, whichever side it took. */
  lemma {:induction false} InverseMapsBack(edits: seq<Edit>, lo: nat, delta: nat, p: nat, left: After, right: After)
    requires Insertions(edits, lo)
    ensures MapPos(MapPos(p, edits, left) + delta, Inverse(edits, delta), right) == p + delta
  {
    if edits != [] {
      var e, rest := edits[0], edits[1..];
      InsertionsStretch(rest, e.pos + 1, p, p, left, left);
      assert Inverse(edits, delta)[1..] == Inverse(rest, delta + |e.ins|);
      InverseMapsBack(rest, e.pos + 1, delta + |e.ins|, p, left, right);
      if p <= e.pos { UntouchedBefore(rest, e.pos + 1, p, left); }
    }
  }

  /** Before the first edit nothing moves. */
  lemma {:induction false} UntouchedBefore(edits: seq<Edit>, lo: nat, p: nat, after: After)
    requires Insertions(edits, lo) && (p < lo || (p == lo && forall e: Edit :: !after(e)))
    ensures MapPos(p, edits, after) == p
  {
    if edits != [] { UntouchedBefore(edits[1..], edits[0].pos + 1, p, after); }
  }

  /** Applying the inverse to the text with the insertions gives the old text back. */
  lemma {:induction false} InverseRestores(t: Str, start: nat, end: nat, edits: seq<Edit>, t2: Str, end2: nat,
        delta: nat)
    requires start <= end <= |t| && Ordered(edits, start, end) && Insertions(edits, start)
    requires start + delta <= end2 <= |t2| && t2[start + delta..end2] == Apply(t, start, end, edits)
    ensures Ordered(Inverse(edits, delta), start + delta, end2)
    ensures Apply(t2, start + delta, end2, Inverse(edits, delta)) == t[start..end]
    decreases |edits|
  {
    if edits != [] {
      var e, rest := edits[0], edits[1..];
      var k, kept := |e.ins|, t[start..e.pos];
      InsertionsWeaken(rest, e.pos + 1, e.pos);
      InverseHead(t2, start + delta, end2, kept, e.ins, Apply(t, e.pos, end, rest));
      InverseRestores(t, e.pos, end, rest, t2, end2, delta + k);
      var back := Inverse(rest, delta + k);
      assert start + delta + |kept| == e.pos + delta;
      DeleteInserted(t2, start + delta, end2, kept, e.ins, e.kind, back, t[e.pos..end]);
      assert Inverse(edits, delta) == [Edit(start + delta + |kept|, k, [], e.kind)] + back;
      SliceJoin(t, start, e.pos, end);
    }
  }

  lemma {:induction false} DeleteInserted(t2: Str, from: nat, end2: nat, kept: Str, ins: Str, kind: EditKind,
        back: seq<Edit>, previous: Str)
    requires var at := from + |kept|;
      at + |ins| <= end2 <= |t2| && t2[from..at] == kept && Ordered(back, at + |ins|, end2) &&
        Apply(t2, at + |ins|, end2, back) == previous
    ensures Ordered([Edit(from + |kept|, |ins|, [], kind)] + back, from, end2)
    ensures Apply(t2, from, end2, [Edit(from + |kept|, |ins|, [], kind)] + back) == kept + previous
  {
    DeleteFirst(t2, from, end2, Edit(from + |kept|, |ins|, [], kind), back);
  }

  lemma {:induction false} DeleteFirst(t: Str, from: nat, end: nat, e: Edit, rest: seq<Edit>)
    requires from <= e.pos && e.pos + e.del <= end <= |t| && e.ins == [] && Ordered(rest, e.pos + e.del, end)
    ensures Ordered([e] + rest, from, end)
    ensures Apply(t, from, end, [e] + rest) == t[from..e.pos] + Apply(t, e.pos + e.del, end, rest)
  {
    assert ([e] + rest)[1..] == rest;
    assert [] + Apply(t, e.pos + e.del, end, rest) == Apply(t, e.pos + e.del, end, rest);
  }

  lemma {:induction false} InverseHead(t2: Str, from: nat, end2: nat, kept: Str, ins: Str, tail: Str)
    requires from <= end2 <= |t2| && t2[from..end2] == kept + (ins + tail)
    ensures t2[from..from + |kept|] == kept && t2[from + |kept| + |ins|..end2] == tail
  {
    SliceOfSlice(t2, from, end2, 0, |kept|);
    SliceOfSlice(t2, from, end2, |kept| + |ins|, end2 - from);
  }

  lemma InsertionsWeaken(edits: seq<Edit>, lo: nat, lower: nat)
    requires Insertions(edits, lo) && lower <= lo
    ensures Insertions(edits, lower)
  {
  }

  /** The new text has as many units more as were inserted. */
  lemma {:induction false} AppliedLength(t: Str, start: nat, end: nat, edits: seq<Edit>)
    requires start <= end <= |t| && Ordered(edits, start, end) && Insertions(edits, start)
    ensures |Apply(t, start, end, edits)| == end - start + Inserted(edits)
    decreases |edits|
  {
    if edits != [] {
      InsertionsWeaken(edits[1..], edits[0].pos + 1, edits[0].pos);
      AppliedLength(t, edits[0].pos, end, edits[1..]);
    }
  }

  /** Every line break of the new text is one of the old text, carried along. */
  lemma {:induction false} BreakOrigin(t: Str, start: nat, end: nat, edits: seq<Edit>, k: nat) returns (p: nat)
    requires start <= end <= |t| && Ordered(edits, start, end) && Insertions(edits, start) && InsertsNoBreak(edits)
    requires k < |Apply(t, start, end, edits)| && Apply(t, start, end, edits)[k] == LF
    ensures start <= p < end && t[p] == LF && MapPos(p, edits, Always) == start + k
    decreases |edits|
  {
    if edits == [] {
      p := start + k;
    } else {
      var e, rest := edits[0], edits[1..];
      InsertionsWeaken(rest, e.pos + 1, e.pos);
      var kept, tail := t[start..e.pos], Apply(t, e.pos, end, rest);
      assert Apply(t, start, end, edits) == kept + (e.ins + tail);
      if k < |kept| {
        p := start + k;
      } else {
        var j := k - |kept| - |e.ins|;
        p := BreakOrigin(t, e.pos, end, rest, if j < 0 then 0 else j);
      }
    }
  }

  /** A stretch without line breaks stays one: between the mapped ends there is no break either. */
  lemma StretchStaysOnLine(t: Str, start: nat, end: nat, edits: seq<Edit>, p: nat, q: nat, left: After, right: After,
        k: nat)
    requires start <= end <= |t| && Ordered(edits, start, end) && Insertions(edits, start) && InsertsNoBreak(edits)
    requires start <= p <= q <= end && forall i :: p <= i < q ==> t[i] != LF
    requires k < |Apply(t, start, end, edits)|
    requires MapPos(p, edits, left) <= start + k < MapPos(q, edits, right)
    ensures Apply(t, start, end, edits)[k] != LF
  {
    if Apply(t, start, end, edits)[k] == LF {
      var b := BreakOrigin(t, start, end, edits, k);
      if b < p {
        InsertionsStretch(edits, start, b, p, Always, left);
      } else {
        InsertionsStretch(edits, start, q, b, right, Always);
      }
    }
  }
}
