/** A text as its lines, and edits that come in pairs, at most one pair inside each line. */
module LineCalculus {
  import opened Text
  import opened EditCalculus

  // ----- lines ---------------------------------------------------------------------------------------------

  function SplitLines(s: Str): (raws: seq<Str>)
    ensures raws != []
    decreases |s|
  {
    var nl := NextBreak(s, 0);
    if nl == |s| then [s] else [s[..nl]] + SplitLines(s[nl + 1..])
  }

  /** Lines and the breaks between them, put together again. */
  function JoinLines(raws: seq<Str>): Str
    requires raws != []
  {
    if |raws| == 1 then raws[0] else raws[0] + ([LF] + JoinLines(raws[1..]))
  }

  lemma {:induction false} JoinSplit(s: Str)
    ensures JoinLines(SplitLines(s)) == s
    ensures forall i :: 0 <= i < |SplitLines(s)| ==> NoBreak(SplitLines(s)[i])
    decreases |s|
  {
    var nl := NextBreak(s, 0);
    if nl < |s| {
      JoinSplit(s[nl + 1..]);
      assert s == s[..nl] + [LF] + s[nl + 1..];
    }
  }

  lemma {:induction false} SplitJoin(raws: seq<Str>)
    requires raws != [] && forall i :: 0 <= i < |raws| ==> NoBreak(raws[i])
    ensures SplitLines(JoinLines(raws)) == raws
  {
    if |raws| > 1 {
      var s, rest := JoinLines(raws), JoinLines(raws[1..]);
      assert s[|raws[0]|] == LF;
      assert forall k :: 0 <= k < |raws[0]| ==> s[k] == raws[0][k];
      assert NextBreak(s, 0) == |raws[0]|;
      assert s[..|raws[0]|] == raws[0] && s[|raws[0]| + 1..] == rest;
      SplitJoin(raws[1..]);
    } else {
      assert NextBreak(raws[0], 0) == |raws[0]|;
    }
  }

  // ----- edits by line -------------------------------------------------------------------------------------

  /** No edits, or two of them one after the other inside [lo, hi]. */
  ghost predicate Pair(es: seq<Edit>, lo: nat, hi: nat) {
    es == [] || (|es| == 2 && lo <= es[0].pos && es[0].pos + es[0].del <= es[1].pos && es[1].pos + es[1].del <= hi)
  }

  ghost function EditLine(raw: Str, ls: nat, es: seq<Edit>): Str
    requires Pair(es, ls, ls + |raw|)
  {
    if es == [] then raw
    else
      raw[..es[0].pos - ls] +
        (es[0].ins +
          (raw[es[0].pos + es[0].del - ls..es[1].pos - ls] + (es[1].ins + raw[es[1].pos + es[1].del - ls..])))
  }

  /** Each line has its pair; the first line starts at ls. */
  ghost predicate ByLine(pairs: seq<seq<Edit>>, raws: seq<Str>, ls: nat) {
    |pairs| == |raws| &&
    (raws == [] || (Pair(pairs[0], ls, ls + |raws[0]|) && ByLine(pairs[1..], raws[1..], ls + |raws[0]| + 1)))
  }

  ghost function Flat(pairs: seq<seq<Edit>>): seq<Edit> {
    if pairs == [] then [] else pairs[0] + Flat(pairs[1..])
  }

  ghost function EditLines(raws: seq<Str>, ls: nat, pairs: seq<seq<Edit>>): (r: seq<Str>)
    requires ByLine(pairs, raws, ls)
    ensures |r| == |raws|
    decreases |raws|
  {
    if raws == [] then [] else [EditLine(raws[0], ls, pairs[0])] + EditLines(raws[1..], ls + |raws[0]| + 1, pairs[1..])
  }

  lemma {:induction false} PairThenOrdered(d: Edit, e: Edit, rest: seq<Edit>, lo: nat, hi: nat)
    requires lo <= d.pos && d.pos + d.del <= e.pos && e.pos + e.del <= hi && Ordered(rest, e.pos + e.del, hi)
    ensures Ordered([d, e] + rest, lo, hi)
  {
    var all := [d, e] + rest;
    assert all[1..] == [e] + rest && all[1..][1..] == rest;
  }

  lemma OrderedWeaken(edits: seq<Edit>, lo: nat, hi: nat, lower: nat)
    requires lower <= lo <= hi && Ordered(edits, lo, hi)
    ensures Ordered(edits, lower, hi)
  {
  }

  lemma {:induction false} ApplyPair(t: Str, lo: nat, hi: nat, d: Edit, e: Edit, rest: seq<Edit>)
    requires lo <= d.pos && d.pos + d.del <= e.pos && e.pos + e.del <= hi <= |t| && Ordered(rest, e.pos + e.del, hi)
    ensures Ordered([d, e] + rest, lo, hi)
    ensures Apply(t, lo, hi, [d, e] + rest)
         == t[lo..d.pos] + (d.ins + (t[d.pos + d.del..e.pos] + (e.ins + Apply(t, e.pos + e.del, hi, rest))))
  {
    PairThenOrdered(d, e, rest, lo, hi);
    var all := [d, e] + rest;
    assert all[1..] == [e] + rest && all[1..][1..] == rest;
    assert Apply(t, d.pos + d.del, hi, all[1..]) == t[d.pos + d.del..e.pos] +
      (e.ins + Apply(t, e.pos + e.del, hi, rest));
  }

  lemma {:induction false} FirstLine(t: Str, ls: nat, raws: seq<Str>)
    requires raws != [] && ls + |JoinLines(raws)| <= |t| && t[ls..ls + |JoinLines(raws)|] == JoinLines(raws)
    ensures t[ls..ls + |raws[0]|] == raws[0]
  {
    assert JoinLines(raws)[0..|raws[0]|] == raws[0];
    RawSlice(t, ls, JoinLines(raws), 0, |raws[0]|);
  }

  lemma {:induction false} FirstBreak(t: Str, ls: nat, raws: seq<Str>)
    requires |raws| > 1
    requires ls + |JoinLines(raws)| <= |t| && t[ls..ls + |JoinLines(raws)|] == JoinLines(raws)
    ensures var le := ls + |raws[0]|; t[le..le + 1] == [LF] && t[le + 1..ls + |JoinLines(raws)|] == JoinLines(raws[1..])
  {
    var all, n, rest := JoinLines(raws), |raws[0]|, JoinLines(raws[1..]);
    assert all == raws[0] + ([LF] + rest);
    assert all[n..n + 1] == [LF] && all[n + 1..|all|] == rest;
    RawSlice(t, ls, all, n, n + 1);
    RawSlice(t, ls, all, n + 1, |all|);
  }

  lemma {:induction false} JoinCons(x: Str, rest: seq<Str>)
    requires rest != []
    ensures JoinLines([x] + rest) == x + ([LF] + JoinLines(rest))
  {
    assert ([x] + rest)[1..] == rest;
  }

  /** Applying the edits is changing the lines one by one. */
  lemma {:induction false} ApplyByLine(t: Str, raws: seq<Str>, ls: nat, pairs: seq<seq<Edit>>)
    requires raws != [] && ByLine(pairs, raws, ls)
    requires ls + |JoinLines(raws)| <= |t| && t[ls..ls + |JoinLines(raws)|] == JoinLines(raws)
    ensures Ordered(Flat(pairs), ls, ls + |JoinLines(raws)|)
    ensures Apply(t, ls, ls + |JoinLines(raws)|, Flat(pairs)) == JoinLines(EditLines(raws, ls, pairs))
    decreases |raws|
  {
    FirstLine(t, ls, raws);
    if |raws| == 1 {
      ApplyOnlyLine(t, raws, ls, pairs);
    } else {
      var le, hi := ls + |raws[0]|, ls + |JoinLines(raws)|;
      FirstBreak(t, ls, raws);
      assert hi == le + 1 + |JoinLines(raws[1..])|;
      ApplyByLine(t, raws[1..], le + 1, pairs[1..]);
      assert Ordered(Flat(pairs[1..]), le + 1, hi);
      assert Apply(t, le + 1, hi, Flat(pairs[1..])) == JoinLines(EditLines(raws[1..], le + 1, pairs[1..]));
      ApplyMany(t, raws, ls, hi, pairs);
    }
  }

  /** One line more in front of lines that are changed one by one. */
  lemma {:induction false} ApplyMany(t: Str, raws: seq<Str>, ls: nat, hi: nat, pairs: seq<seq<Edit>>)
    requires |raws| > 1 && ByLine(pairs, raws, ls)
    requires var le := ls + |raws[0]|;
      && le + 1 <= hi <= |t| && t[ls..le] == raws[0] && t[le..le + 1] == [LF] && Ordered(Flat(pairs[1..]), le + 1, hi)
      && Apply(t, le + 1, hi, Flat(pairs[1..])) == JoinLines(EditLines(raws[1..], le + 1, pairs[1..]))
    ensures Ordered(Flat(pairs), ls, hi)
    ensures Apply(t, ls, hi, Flat(pairs)) == JoinLines(EditLines(raws, ls, pairs))
  {
    var le := ls + |raws[0]|;
    JoinFirstOfMany(raws, ls, pairs);
    ApplyFirstOfMany(t, raws[0], ls, hi, pairs[0], Flat(pairs[1..]));
    SameBehind(Apply(t, ls, hi, Flat(pairs)), JoinLines(EditLines(raws, ls, pairs)), EditLine(raws[0], ls, pairs[0]),
               Apply(t, le + 1, hi, Flat(pairs[1..])), JoinLines(EditLines(raws[1..], le + 1, pairs[1..])));
  }

  lemma {:induction false} SameBehind(a: Str, b: Str, line: Str, x: Str, y: Str)
    requires a == line + ([LF] + x) && b == line + ([LF] + y) && x == y
    ensures a == b
  {
  }

  lemma {:induction false} JoinFirstOfMany(raws: seq<Str>, ls: nat, pairs: seq<seq<Edit>>)
    requires |raws| > 1 && ByLine(pairs, raws, ls)
    ensures Flat(pairs) == pairs[0] + Flat(pairs[1..])
    ensures JoinLines(EditLines(raws, ls, pairs))
         == EditLine(raws[0], ls, pairs[0]) + ([LF] + JoinLines(EditLines(raws[1..], ls + |raws[0]| + 1, pairs[1..])))
  {
    JoinCons(EditLine(raws[0], ls, pairs[0]), EditLines(raws[1..], ls + |raws[0]| + 1, pairs[1..]));
  }

  lemma {:induction false} ApplyOnlyLine(t: Str, raws: seq<Str>, ls: nat, pairs: seq<seq<Edit>>)
    requires |raws| == 1 && ByLine(pairs, raws, ls)
    requires ls + |raws[0]| <= |t| && t[ls..ls + |raws[0]|] == raws[0]
    ensures Ordered(Flat(pairs), ls, ls + |raws[0]|)
    ensures Apply(t, ls, ls + |raws[0]|, Flat(pairs)) == JoinLines(EditLines(raws, ls, pairs))
  {
    var le, x := ls + |raws[0]|, EditLine(raws[0], ls, pairs[0]);
    assert pairs[1..] == [] && Flat(pairs) == pairs[0] + [];
    ApplyOneLine(t, raws[0], ls, le, pairs[0], []);
    assert EditLines(raws, ls, pairs) == [x] && x + [] == x;
  }

  lemma {:induction false} ApplyFirstOfMany(t: Str, raw: Str, ls: nat, hi: nat, es: seq<Edit>, rest: seq<Edit>)
    requires var le := ls + |raw|;
      le + 1 <= hi <= |t| && t[ls..le] == raw && t[le..le + 1] == [LF] && Pair(es, ls, le) && Ordered(rest, le + 1, hi)
    ensures Ordered(es + rest, ls, hi)
    ensures Apply(t, ls, hi, es + rest) == EditLine(raw, ls, es) + ([LF] + Apply(t, ls + |raw| + 1, hi, rest))
  {
    ApplyAcrossBreak(t, ls + |raw|, hi, rest);
    ApplyOneLine(t, raw, ls, hi, es, rest);
  }

  lemma {:induction false} ApplyAcrossBreak(t: Str, le: nat, hi: nat, rest: seq<Edit>)
    requires le + 1 <= hi <= |t| && t[le..le + 1] == [LF] && Ordered(rest, le + 1, hi)
    ensures Ordered(rest, le, hi)
    ensures Apply(t, le, hi, rest) == [LF] + Apply(t, le + 1, hi, rest)
  {
    ApplyGap(t, le, le + 1, hi, rest);
  }

  lemma {:induction false} RawSlice(t: Str, ls: nat, raw: Str, x: nat, y: nat)
    requires ls + |raw| <= |t| && t[ls..ls + |raw|] == raw && x <= y <= |raw|
    ensures raw[x..y] == t[ls + x..ls + y]
  {
    SliceOfSlice(t, ls, ls + |raw|, x, y);
  }

  lemma {:induction false} ApplyOneLine(t: Str, raw: Str, ls: nat, hi: nat, es: seq<Edit>, rest: seq<Edit>)
    requires ls + |raw| <= hi <= |t| && t[ls..ls + |raw|] == raw
    requires Pair(es, ls, ls + |raw|) && Ordered(rest, ls + |raw|, hi)
    ensures Ordered(es + rest, ls, hi)
    ensures Apply(t, ls, hi, es + rest) == EditLine(raw, ls, es) + Apply(t, ls + |raw|, hi, rest)
  {
    var le := ls + |raw|;
    if es == [] {
      assert es + rest == rest;
      ApplyGap(t, ls, le, hi, rest);
    } else {
      var d, e := es[0], es[1];
      assert es == [d, e];
      var q, q0 := e.pos + e.del, d.pos + d.del;
      ApplyGap(t, q, le, hi, rest);
      ApplyPair(t, ls, hi, d, e, rest);
      RawSlice(t, ls, raw, 0, d.pos - ls);
      RawSlice(t, ls, raw, q0 - ls, e.pos - ls);
      RawSlice(t, ls, raw, q - ls, |raw|);
      var a, b, c, tail := t[ls..d.pos], t[q0..e.pos], t[q..le], Apply(t, le, hi, rest);
      assert EditLine(raw, ls, es) == a + (d.ins + (b + (e.ins + c)));
      AssociateFive(a, d.ins, b, e.ins, c, tail);
    }
  }

  // ----- where lines go when every edit is an insertion ----------------------------------------------------

  /** Where line k starts, counted from the start of the first line. */
  ghost function Offset(raws: seq<Str>, k: nat): nat
    requires k <= |raws|
  {
    if k == 0 then 0 else |raws[0]| + 1 + Offset(raws[1..], k - 1)
  }

  lemma {:induction false} OffsetNext(raws: seq<Str>, k: nat)
    requires k < |raws|
    ensures Offset(raws, k + 1) == Offset(raws, k) + |raws[k]| + 1
    decreases k
  {
    if k > 0 { OffsetNext(raws[1..], k - 1); }
  }

  /** The pairs only insert, at two different points of the line, and never a line break. */
  ghost predicate Inserting(pairs: seq<seq<Edit>>) {
    forall i :: 0 <= i < |pairs| ==> InsertingPair(pairs[i])
  }

  ghost predicate InsertingPair(es: seq<Edit>) {
    es == [] ||
    (|es| == 2 && es[0].pos < es[1].pos && es[0].del == 0 && es[1].del == 0 &&
     es[0].ins != [] && es[1].ins != [] && NoBreak(es[0].ins) && NoBreak(es[1].ins))
  }

  lemma {:induction false} PairThenInsertions(es: seq<Edit>, rest: seq<Edit>, lo: nat, hi: nat)
    requires lo <= hi && Pair(es, lo, hi) && InsertingPair(es)
    requires Insertions(rest, hi + 1) && InsertsNoBreak(rest)
    ensures Insertions(es + rest, lo) && InsertsNoBreak(es + rest)
  {
    if es == [] {
      assert es + rest == rest;
      InsertionsWeaken(rest, hi + 1, lo);
    } else {
      var all := es + rest;
      assert all[1..] == [es[1]] + rest && all[1..][1..] == rest;
      InsertionsWeaken(rest, hi + 1, es[1].pos + 1);
    }
  }

  lemma {:induction false} ByLineInsertions(raws: seq<Str>, ls: nat, pairs: seq<seq<Edit>>)
    requires ByLine(pairs, raws, ls) && Inserting(pairs)
    ensures Insertions(Flat(pairs), ls) && InsertsNoBreak(Flat(pairs))
    decreases |raws|
  {
    if raws != [] {
      var le := ls + |raws[0]|;
      ByLineInsertions(raws[1..], le + 1, pairs[1..]);
      PairThenInsertions(pairs[0], Flat(pairs[1..]), ls, le);
    }
  }

  lemma {:induction false} MapPosPair(p: nat, es: seq<Edit>, rest: seq<Edit>, lo: nat, hi: nat, after: After)
    requires lo <= hi && Pair(es, lo, hi) && InsertingPair(es) && Insertions(rest, hi + 1)
    ensures p <= hi ==> MapPos(p, es + rest, after) == MapPos(p, es, after)
    ensures p > hi ==> MapPos(p, es + rest, after) == MapPos(p, rest, after) + Inserted(es)
  {
    if p <= hi { UntouchedBefore(rest, hi + 1, p, after); }
    if es == [] {
      assert es + rest == rest;
    } else {
      var all := es + rest;
      assert es[1..] == [es[1]] && es[1..][1..] == [] && all[1..] == [es[1]] + rest && all[1..][1..] == rest;
      assert Inserted(es[1..]) == |es[1].ins| && MapPos(p, es[1..][1..], after) == p;
    }
  }

  lemma {:induction false} EditLineLength(raw: Str, ls: nat, es: seq<Edit>)
    requires Pair(es, ls, ls + |raw|) && InsertingPair(es)
    ensures |EditLine(raw, ls, es)| == |raw| + Inserted(es)
  {
    if es != [] { assert es[1..] == [es[1]] && Inserted(es[1..]) == |es[1].ins|; }
  }

  /** A position in line k moves by its own line's edits and by what went into the lines before. */
  lemma {:induction false} MapPosByLine(raws: seq<Str>, ls: nat, pairs: seq<seq<Edit>>, k: nat, p: nat, after: After)
    requires ByLine(pairs, raws, ls) && Inserting(pairs) && k < |raws|
    requires ls + Offset(raws, k) <= p <= ls + Offset(raws, k) + |raws[k]|
    ensures MapPos(p, Flat(pairs), after) == MapPos(p, pairs[k], after) +
      Offset(EditLines(raws, ls, pairs), k) - Offset(raws, k)
    decreases k
  {
    var le := ls + |raws[0]|;
    ByLineInsertions(raws[1..], le + 1, pairs[1..]);
    MapPosPair(p, pairs[0], Flat(pairs[1..]), ls, le, after);
    if k > 0 {
      MapPosByLine(raws[1..], le + 1, pairs[1..], k - 1, p, after);
      EditLineLength(raws[0], ls, pairs[0]);
      assert EditLines(raws, ls, pairs)[1..] == EditLines(raws[1..], le + 1, pairs[1..]);
    }
  }

  /** Unit j of line k, in the lines put together. */
  lemma {:induction false} JoinedUnit(raws: seq<Str>, k: nat, j: nat)
    requires k < |raws| && j < |raws[k]|
    ensures Offset(raws, k) + |raws[k]| <= |JoinLines(raws)|
    ensures JoinLines(raws)[Offset(raws, k) + j] == raws[k][j]
    decreases k
  {
    if k > 0 {
      JoinedUnit(raws[1..], k - 1, j);
      ThreeParts(raws[0], [LF], JoinLines(raws[1..]), Offset(raws[1..], k - 1) + j);
    }
  }

  lemma {:induction false} JoinedEnd(raws: seq<Str>, k: nat)
    requires k < |raws|
    ensures Offset(raws, k) + |raws[k]| <= |JoinLines(raws)|
    decreases k
  {
    if k > 0 { JoinedEnd(raws[1..], k - 1); }
  }
}
