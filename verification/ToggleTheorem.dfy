/** Toggling twice: exactly when the text and the selection come back. */
module ToggleTheorem {
  import opened Text
  import opened Markers
  import opened EditCalculus
  import opened LineCalculus
  import opened CommentToggle
  import opened ToggleRoundTrip
  import opened ToggleTwice
  import opened RegionCarry

  // ----- the second toggle covers the same lines -----------------------------------------------------------

  /** The first toggle, as insertions into its region. */
  lemma {:induction false} FirstGrown(f: First) returns (g: Grown)
    requires f.Valid()
    ensures g == Grown(f.t, f.start, f.end, f.edits, f.t2) && g.Valid() && g.End2() == f.End2()
  {
    g := Grown(f.t, f.start, f.end, f.edits, f.t2);
    AppliedLength(f.t, f.start, f.end, f.edits);
    PartsLength(f.t[..f.start], JoinLines(f.raws2), f.t[f.end..]);
    PartsLength(f.t[..f.start], Apply(f.t, f.start, f.end, f.edits), f.t[f.end..]);
  }

  lemma {:induction false} PartsLength(a: Str, b: Str, c: Str)
    ensures |a + b + c| == |a| + |b| + |c|
  {
  }

  // ----- the second edits are the first ones taken back ----------------------------------------------------

  lemma {:induction false} InverseSplit(a: seq<Edit>, b: seq<Edit>, delta: nat)
    ensures Inverse(a + b, delta) == Inverse(a, delta) + Inverse(b, delta + Inserted(a))
  {
    if a == [] {
      assert a + b == b;
    } else {
      assert (a + b)[1..] == a[1..] + b;
      InverseSplit(a[1..], b, delta + |a[0].ins|);
    }
  }

  lemma {:induction false} PairInverse(d: Edit, e: Edit, delta: nat)
    ensures Inverse([d, e], delta)
         == [Edit(d.pos + delta, |d.ins|, [], d.kind), Edit(e.pos + delta + |d.ins|, |e.ins|, [], e.kind)]
    ensures Inserted([d, e]) == |d.ins| + |e.ins|
  {
    assert [d, e][1..] == [e] && [e][1..] == [];
    assert Inverse([e], delta + |d.ins|) == [Edit(e.pos + delta + |d.ins|, |e.ins|, [], e.kind)];
    assert Inserted([e]) == |e.ins|;
  }

  lemma {:induction false} InverseOfComment(l: Line, l2: Line, delta: nat)
    requires Indent(l.body) < |l.body| && !HasArrow(l.body)
    requires l2.ls == l.ls + delta && l2.body == CommentText(l.body)
    ensures MatchOneLine(l2.body).OneLine? && Uncomment(l2) == Inverse(Comment(l), delta)
    ensures Inserted(Comment(l)) == 9
    ensures RemovedSpan(l2) == Range(l2.ls + Indent(l.body), l2.ls + |l.body| + 9)
  {
    CommentTextMatches(l.body);
    PairInverse(Comment(l)[0], Comment(l)[1], delta);
  }

  /** The second pair of line k is the inverse of the first, pushed by what went into the lines before. */
  ghost predicate BackAt(pairs: seq<seq<Edit>>, pairs2: seq<seq<Edit>>, delta: nat, k: nat)
    requires k < |pairs| == |pairs2|
  {
    pairs2[k] == Inverse(pairs[k], delta + Inserted(Flat(pairs[..k])))
  }

  lemma {:induction false} BackAtRest(pairs: seq<seq<Edit>>, pairs2: seq<seq<Edit>>, delta: nat, k: nat)
    requires k + 1 < |pairs| == |pairs2| && BackAt(pairs, pairs2, delta, k + 1)
    ensures BackAt(pairs[1..], pairs2[1..], delta + Inserted(pairs[0]), k)
  {
    assert pairs[..k + 1] == [pairs[0]] + pairs[1..][..k];
    InsertedSplit(pairs[0], Flat(pairs[1..][..k]));
  }

  /** Edits taken back line by line are taken back altogether. */
  lemma {:induction false} PairsTakenBack(pairs: seq<seq<Edit>>, pairs2: seq<seq<Edit>>, delta: nat)
    requires |pairs| == |pairs2| && forall k :: 0 <= k < |pairs| ==> BackAt(pairs, pairs2, delta, k)
    ensures Flat(pairs2) == Inverse(Flat(pairs), delta)
  {
    if pairs != [] {
      var es, rest := pairs[0], pairs[1..];
      assert BackAt(pairs, pairs2, delta, 0) && pairs[..0] == [];
      var rest2, pushed := pairs2[1..], delta + Inserted(es);
      forall k | 0 <= k < |rest| ensures BackAt(rest, rest2, pushed, k) {
        assert BackAt(pairs, pairs2, delta, k + 1);
        BackAtRest(pairs, pairs2, delta, k);
      }
      PairsTakenBack(rest, rest2, pushed);
      InverseSplit(es, Flat(rest), delta);
    }
  }

  lemma {:induction false} InsertedSplit(a: seq<Edit>, b: seq<Edit>)
    ensures Inserted(a + b) == Inserted(a) + Inserted(b)
  {
    if a == [] {
      assert a + b == b;
    } else {
      assert (a + b)[1..] == a[1..] + b;
      InsertedSplit(a[1..], b);
    }
  }

  /** How far a line is pushed is what went into the lines before it. */
  lemma {:induction false} OffsetGrows(raws: seq<Str>, ls: nat, pairs: seq<seq<Edit>>, k: nat)
    requires ByLine(pairs, raws, ls) && Inserting(pairs) && k <= |raws|
    ensures Offset(EditLines(raws, ls, pairs), k) == Offset(raws, k) + Inserted(Flat(pairs[..k]))
    decreases k
  {
    if k > 0 {
      var next := ls + |raws[0]| + 1;
      OffsetGrows(raws[1..], next, pairs[1..], k - 1);
      assert pairs[..k] == [pairs[0]] + pairs[1..][..k - 1];
      InsertedSplit(pairs[0], Flat(pairs[1..][..k - 1]));
      EditLineLength(raws[0], ls, pairs[0]);
      assert EditLines(raws, ls, pairs)[1..] == EditLines(raws[1..], next, pairs[1..]);
    }
  }

  /** The comment the next toggle takes off a line is the one that was put there. */
  ghost predicate SpanBack(l: Line, l2: Line, edits: seq<Edit>) {
    if l.kind.Plain? then l2.kind.Commented? && MatchOneLine(l2.body).OneLine? && AddedSpan(l, edits) == RemovedSpan(l2)
    else !l2.kind.Commented?
  }

  lemma {:induction false} RemovedIsAdded(lines: seq<Line>, lines2: seq<Line>, edits: seq<Edit>)
    requires |lines| == |lines2| && forall k :: 0 <= k < |lines| ==> SpanBack(lines[k], lines2[k], edits)
    ensures Removed(lines2) == Added(lines, edits)
  {
    if lines != [] {
      assert SpanBack(lines[0], lines2[0], edits);
      RemovedIsAdded(lines[1..], lines2[1..], edits);
    }
  }

  // ----- the comments come back ----------------------------------------------------------------------------

  ghost predicate Rising(rs: seq<Range>) {
    forall i, j :: 0 <= i < j < |rs| ==> rs[i].start < rs[j].start
  }

  lemma {:induction false} CommentsRise(t: Str, rs: seq<Range>)
    requires Comments(t, rs)
    ensures Rising(rs)
  {
    forall i, j | 0 <= i < j < |rs| ensures rs[i].start < rs[j].start {
      assert rs[i].start < rs[i].end;
    }
  }

  lemma {:induction false} SortOfRising(rs: seq<Range>)
    requires Rising(rs)
    ensures SortByStart(rs) == rs
  {
    if rs != [] {
      SortOfRising(rs[1..]);
      assert |rs| > 1 ==> rs[0].start < rs[1].start;
    }
  }

  function Without(rs: seq<Range>, removed: seq<Range>): (q: seq<Range>)
    ensures forall x :: x in q <==> x in rs && x !in removed
  {
    if rs == [] then [] else (if rs[0] in removed then [] else [rs[0]]) + Without(rs[1..], removed)
  }

  lemma {:induction false} WithoutRises(rs: seq<Range>, removed: seq<Range>)
    requires Rising(rs)
    ensures Rising(Without(rs, removed))
  {
    if rs != [] {
      WithoutRises(rs[1..], removed);
      var rest := Without(rs[1..], removed);
      forall j | 0 <= j < |rest| ensures rs[0].start < rest[j].start {
        assert rest[j] in rest;
        var i :| 0 <= i < |rs[1..]| && rs[1..][i] == rest[j];
        assert rs[i + 1] == rest[j];
      }
    }
  }

  lemma {:induction false} KeptOfWithout(rs: seq<Range>, removed: seq<Range>, edits: seq<Edit>)
    ensures Kept(rs, removed, edits) == Kept(Without(rs, removed), [], edits)
  {
    if rs != [] {
      KeptOfWithout(rs[1..], removed, edits);
      var rest := Without(rs[1..], removed);
      if rs[0] !in removed { assert ([rs[0]] + rest)[1..] == rest; } else { assert [] + rest == rest; }
    }
  }

  /** Two rising lists with the same members are the same list. */
  lemma {:induction false} RisingUnique(p: seq<Range>, q: seq<Range>)
    requires Rising(p) && Rising(q) && forall x :: x in p <==> x in q
    ensures p == q
  {
    if p == [] {
      if q != [] { HasMember(q); }
    } else {
      assert p[0] in p && p[0] in q;
      assert q[0] in q && q[0] in p;
      var i :| 0 <= i < |q| && q[i] == p[0];
      var j :| 0 <= j < |p| && p[j] == q[0];
      assert q[0].start <= q[i].start && p[0].start <= p[j].start;
      forall x ensures x in p[1..] <==> x in q[1..] { TailMembers(p, x); TailMembers(q, x); }
      RisingUnique(p[1..], q[1..]);
    }
  }

  lemma {:induction false} HasMember(q: seq<Range>)
    requires q != []
    ensures exists x :: x in q
  {
    assert q[0] in q;
  }

  lemma {:induction false} TailMembers(p: seq<Range>, x: Range)
    requires p != [] && Rising(p)
    ensures x in p[1..] <==> x in p && x != p[0]
  {
    if x in p[1..] {
      var i :| 0 <= i < |p[1..]| && p[1..][i] == x;
      assert p[i + 1] == x && p[0].start < p[i + 1].start;
    }
    if x in p && x != p[0] {
      var i :| 0 <= i < |p| && p[i] == x;
      assert p[1..][i - 1] == x;
    }
  }

  lemma {:induction false} NoTwins(q: seq<Range>, x: Range)
    requires Rising(q)
    ensures multiset(q)[x] <= 1
  {
    if q != [] {
      NoTwins(q[1..], x);
      TailMembers(q, x);
      assert q == [q[0]] + q[1..];
    }
  }

  /** Taking the members of one list out of the sorted mix of two leaves the other. */
  lemma {:induction false} WithoutAdded(kept: seq<Range>, added: seq<Range>)
    requires Rising(kept) && Rising(SortByStart(kept + added))
    ensures Without(SortByStart(kept + added), added) == kept
  {
    var mix := SortByStart(kept + added);
    SortKeeps(kept + added);
    SameMembers(mix, kept, added);
    WithoutRises(mix, added);
    forall x ensures x in Without(mix, added) <==> x in kept {
      NoTwins(mix, x);
      assert multiset(mix)[x] == multiset(kept)[x] + multiset(added)[x];
    }
    RisingUnique(Without(mix, added), kept);
  }

  /** The old comments, out of the comments of the edited text: the new ones are left out, the rest go back. */
  lemma {:induction false} CommentsBack(t: Str, ranges: seq<Range>, edits: seq<Edit>, added: seq<Range>, t2: Str,
        ranges2: seq<Range>)
    requires Comments(t, ranges) && Insertions(edits, 0)
    requires ranges2 == SortByStart(Kept(ranges, [], edits) + added) && Comments(t2, ranges2)
    ensures SortByStart(Kept(ranges2, added, Inverse(edits, 0)) + []) == ranges
  {
    CommentsRise(t, ranges);
    CommentsRise(t2, ranges2);
    KeptRises(ranges, edits);
    WithoutAdded(Kept(ranges, [], edits), added);
    KeptOfWithout(ranges2, added, Inverse(edits, 0));
    KeptBack(t, ranges, edits);
    assert ranges + [] == ranges;
    SortOfRising(ranges);
  }

  lemma {:induction false} KeptRises(ranges: seq<Range>, edits: seq<Edit>)
    requires Rising(ranges) && Insertions(edits, 0) && forall i :: 0 <= i < |ranges| ==> 0 <= ranges[i].start
    ensures Rising(Kept(ranges, [], edits))
  {
    KeptMembers(ranges, edits);
    forall i, j | 0 <= i < j < |ranges| ensures Moved(ranges[i], edits).start < Moved(ranges[j], edits).start {
      InsertionsStretch(edits, 0, ranges[i].start, ranges[j].start, Never, Never);
    }
  }

  lemma {:induction false} KeptBack(t: Str, ranges: seq<Range>, edits: seq<Edit>)
    requires Insertions(edits, 0) && Comments(t, ranges)
    ensures Kept(Kept(ranges, [], edits), [], Inverse(edits, 0)) == ranges
  {
    var kept, back := Kept(ranges, [], edits), Inverse(edits, 0);
    var again := Kept(kept, [], back);
    KeptMembers(ranges, edits);
    KeptMembers(kept, back);
    forall i | 0 <= i < |ranges| ensures again[i] == ranges[i] {
      assert kept[i] == Moved(ranges[i], edits) && again[i] == Moved(kept[i], back);
      MovedBack(ranges[i], edits, back);
    }
  }

  lemma {:induction false} MovedBack(r: Range, edits: seq<Edit>, back: seq<Edit>)
    requires Insertions(edits, 0) && back == Inverse(edits, 0) && 0 <= r.start && 0 <= r.end
    ensures Moved(Moved(r, edits), back) == r
  {
    InverseMapsBack(edits, 0, 0, r.start, Never, Never);
    InverseMapsBack(edits, 0, 0, r.end, Always, Always);
  }

  // ----- the lines of the second toggle --------------------------------------------------------------------

  /** A first toggle whose structural check passed. */
  ghost predicate Checked(f: First, ranges: seq<Range>, ranges2: seq<Range>) {
    && f.Valid() && Comments(f.t, ranges) && Comments(f.t2, ranges2) && NoMarkers(f.t2, ranges2)
    && f.lines == LinesFrom(KindsOf(f.t, ranges), f.start, f.raws)
    && ranges2 == SortByStart(Kept(ranges, [], f.edits) + Added(f.lines, f.edits))
  }

  /** The lines the second toggle sees are the texts the first one wrote. */
  lemma {:induction false} SecondRegion(f: First)
    requires f.Valid()
    ensures f.End2() <= |f.t2| && f.t2[f.start..f.End2()] == JoinLines(f.raws2)
    ensures SplitLines(f.t2[f.start..f.End2()]) == f.raws2
  {
    ThreeSlices(f.t[..f.start], JoinLines(f.raws2), f.t[f.end..]);
    AfterNoBreak(f.lines, f.raws, f.start);
    SplitJoin(f.raws2);
  }

  lemma {:induction false} SecondLineFits(f: First, kindAt: KindAt, lines2: seq<Line>, k: nat)
    requires |f.raws2| == |f.lines| && Sound(kindAt) && lines2 == LinesFrom(kindAt, f.start, f.raws2) && k < |f.lines|
    ensures LineFits(lines2[k], f.raws2[k], At2(f, k))
    ensures lines2[k].kind == kindAt(At2(f, k), WithoutReturn(f.raws2[k]))
  {
    LinesFit(kindAt, f.start, f.raws2);
    FitsAt(lines2, f.raws2, f.start, k);
    LinesFromAt(kindAt, f.start, f.raws2, k);
  }

  lemma {:induction false} SecondLine(f: First, ranges: seq<Range>, ranges2: seq<Range>, lines2: seq<Line>, k: nat)
    requires Checked(f, ranges, ranges2) && k < |f.lines|
    requires lines2 == LinesFrom(KindsOf(f.t2, ranges2), f.start, f.raws2)
    ensures LineFits(lines2[k], f.raws2[k], At2(f, k)) && KindAfter(f.lines[k], lines2[k].kind)
  {
    KindsSound(f.t2, ranges2);
    SecondLineFits(f, KindsOf(f.t2, ranges2), lines2, k);
    KindTwo(f, ranges, ranges2, k);
  }

  /** Nothing is plain any more. */
  lemma {:induction false} NoPlainLeft(f: First, ranges: seq<Range>, ranges2: seq<Range>, lines2: seq<Line>)
    requires Checked(f, ranges, ranges2)
    requires lines2 == LinesFrom(KindsOf(f.t2, ranges2), f.start, f.raws2)
    ensures !HasKind(lines2, Plain)
  {
    forall k | 0 <= k < |lines2| ensures !lines2[k].kind.Plain? {
      SecondLine(f, ranges, ranges2, lines2, k);
    }
  }

  /** No line was a comment already, and no commented-out line reads as a tag line. */
  ghost predicate AllTakenBack(lines: seq<Line>) {
    forall k :: 0 <= k < |lines| ==> LineTakenBack(lines[k])
  }

  predicate LineTakenBack(l: Line) {
    !l.kind.Commented? && (l.kind.Plain? ==> !ReadsAsTag(l.body))
  }

  /** A commented-out line, seen again. */
  ghost predicate SeenAgain(l: Line, l2: Line, shift: nat, edits: seq<Edit>) {
    && l2.ls == l.ls + shift && l2.body == CommentText(l.body)
    && Indent(l.body) < |l.body| && !HasArrow(l.body)
    && AddedSpan(l, edits) == Range(l2.ls + Indent(l.body), l2.ls + |l.body| + 9)
  }

  lemma {:induction false} LineBack(l: Line, l2: Line, shift: nat, edits: seq<Edit>)
    requires LineTakenBack(l) && KindAfter(l, l2.kind)
    requires l.kind.Plain? ==> SeenAgain(l, l2, shift, edits)
    ensures EditsOfLine(l2, false) == Inverse(EditsOfLine(l, true), shift)
    ensures SpanBack(l, l2, edits)
  {
    if l.kind.Plain? { InverseOfComment(l, l2, shift); }
  }

  lemma {:induction false} LineSeenAgain(f: First, ranges: seq<Range>, ranges2: seq<Range>, lines2: seq<Line>, k: nat,
        shift: nat)
    requires Checked(f, ranges, ranges2) && k < |f.lines| && f.lines[k].kind.Plain?
    requires lines2 == LinesFrom(KindsOf(f.t2, ranges2), f.start, f.raws2)
    requires At2(f, k) == At1(f, k) + shift
    ensures SeenAgain(f.lines[k], lines2[k], shift, f.edits)
  {
    var l := f.lines[k];
    SecondLine(f, ranges, ranges2, lines2, k);
    LineText(f, k);
    KindOne(f, ranges, k);
    PlainText(f.t, ranges, l.ls, l.body);
    CommentedRaw(l.body, f.raws[k]);
    AddedSpanAt(f, k);
  }

  lemma {:induction false} SecondPair(f: First, ranges: seq<Range>, ranges2: seq<Range>, lines2: seq<Line>, k: nat,
        shift: nat)
    requires Checked(f, ranges, ranges2) && k < |f.lines| && LineTakenBack(f.lines[k])
    requires lines2 == LinesFrom(KindsOf(f.t2, ranges2), f.start, f.raws2)
    requires At2(f, k) == At1(f, k) + shift
    ensures EditsOfLine(lines2[k], false) == Inverse(EditsOfLine(f.lines[k], true), shift)
    ensures SpanBack(f.lines[k], lines2[k], f.edits)
  {
    SecondLine(f, ranges, ranges2, lines2, k);
    if f.lines[k].kind.Plain? { LineSeenAgain(f, ranges, ranges2, lines2, k, shift); }
    LineBack(f.lines[k], lines2[k], shift, f.edits);
  }

  lemma {:induction false} OffsetGrowsFirst(f: First, k: nat)
    requires f.Region() && k <= |f.raws|
    ensures At2(f, k) == At1(f, k) + Inserted(Flat(Pairs(f.lines, true)[..k]))
  {
    PairsByLine(f.lines, f.raws, f.start, true);
    OffsetGrows(f.raws, f.start, Pairs(f.lines, true), k);
  }

  lemma {:induction false} PairBack(f: First, ranges: seq<Range>, ranges2: seq<Range>, lines2: seq<Line>, k: nat)
    requires Checked(f, ranges, ranges2) && k < |f.lines| && LineTakenBack(f.lines[k])
    requires lines2 == LinesFrom(KindsOf(f.t2, ranges2), f.start, f.raws2)
    ensures BackAt(Pairs(f.lines, true), Pairs(lines2, false), 0, k)
  {
    OffsetGrowsFirst(f, k);
    SecondPair(f, ranges, ranges2, lines2, k, Inserted(Flat(Pairs(f.lines, true)[..k])));
    PairsAt(f.lines, true, k);
    PairsAt(lines2, false, k);
  }

  /** When every line can be taken back, the second edits are exactly the inverse of the first. */
  lemma {:induction false} SecondEdits(f: First, ranges: seq<Range>, ranges2: seq<Range>, lines2: seq<Line>)
    requires Checked(f, ranges, ranges2) && AllTakenBack(f.lines)
    requires lines2 == LinesFrom(KindsOf(f.t2, ranges2), f.start, f.raws2)
    ensures EditsOf(lines2, false) == Inverse(f.edits, 0)
  {
    var pairs, pairs2 := Pairs(f.lines, true), Pairs(lines2, false);
    forall k | 0 <= k < |pairs| ensures BackAt(pairs, pairs2, 0, k) {
      assert LineTakenBack(f.lines[k]);
      PairBack(f, ranges, ranges2, lines2, k);
    }
    PairsTakenBack(pairs, pairs2, 0);
    PairsFlat(f.lines, true);
    PairsFlat(lines2, false);
  }

  /** And the comments it takes off are exactly the ones that were put there. */
  lemma {:induction false} SecondRemoved(f: First, ranges: seq<Range>, ranges2: seq<Range>, lines2: seq<Line>)
    requires Checked(f, ranges, ranges2) && AllTakenBack(f.lines)
    requires lines2 == LinesFrom(KindsOf(f.t2, ranges2), f.start, f.raws2)
    ensures Removed(lines2) == Added(f.lines, f.edits)
  {
    forall k | 0 <= k < |f.lines| ensures SpanBack(f.lines[k], lines2[k], f.edits) {
      OffsetGrowsFirst(f, k);
      assert LineTakenBack(f.lines[k]);
      SecondPair(f, ranges, ranges2, lines2, k, Inserted(Flat(Pairs(f.lines, true)[..k])));
    }
    RemovedIsAdded(f.lines, lines2, f.edits);
  }

  // ----- the theorem ---------------------------------------------------------------------------------------

  /** The note after the key press. */
  ghost function NoteAfter(t: Str, r: Toggle): Str
    requires r.start <= r.end <= |t|
  {
    t[..r.start] + r.replacement + t[r.end..]
  }

  lemma {:induction false} SomeCommented(f: First, lines2: seq<Line>)
    requires |lines2| == |f.lines| && HasKind(f.lines, Plain) && AllTakenBack(f.lines)
    requires forall k :: 0 <= k < |f.lines| ==> KindAfter(f.lines[k], lines2[k].kind)
    ensures HasKind(lines2, Commented)
  {
    var k :| 0 <= k < |f.lines| && f.lines[k].kind.Plain?;
    assert LineTakenBack(f.lines[k]) && KindAfter(f.lines[k], lines2[k].kind);
    assert lines2[k].kind == Commented;
  }

  /** The inverse edits, applied where the insertions are, give the text back. */
  lemma {:induction false} InsertThenDelete(t: Str, start: nat, end: nat, edits: seq<Edit>, end2: nat)
    requires start <= end <= |t| && Ordered(edits, start, end) && Insertions(edits, start)
    requires end2 == start + |Apply(t, start, end, edits)|
    ensures var t2 := Edited(t, start, end, edits);
      && end2 <= |t2| && Ordered(Inverse(edits, 0), start, end2)
      && Edited(t2, start, end2, Inverse(edits, 0)) == t
  {
    var a, m, c := t[..start], Apply(t, start, end, edits), t[end..];
    ThreeSlices(a, m, c);
    InverseRestores(t, start, end, edits, a + m + c, end2, 0);
    assert a + t[start..end] + c == t;
  }

  /** The text, edited back. */
  lemma {:induction false} EditedBack(f: First)
    requires f.Valid()
    ensures f.End2() <= |f.t2| && Ordered(Inverse(f.edits, 0), f.start, f.End2())
    ensures Edited(f.t2, f.start, f.End2(), Inverse(f.edits, 0)) == f.t
  {
    var g := FirstGrown(f);
    EndTwo(g);
    InsertThenDelete(f.t, f.start, f.end, f.edits, f.End2());
  }

  lemma {:induction false} Restored(f: First, scan: Scanner, unclosed: Str -> int, a2: nat, b2: nat)
    requires CommentScanner(scan) && Checked(f, scan(f.t), scan(f.t2))
    requires HasKind(f.lines, Plain) && AllTakenBack(f.lines) && f.End2() <= |f.t2|
    ensures var r := LineToggle(scan, unclosed, f.t2, f.start, f.End2(), a2, b2);
      var sel := MapSelection(a2, b2, Inverse(f.edits, 0));
      r.status == Uncommented && NoteAfter(f.t2, r) == f.t && r.selStart == sel.0 && r.selEnd == sel.1
  {
    var ranges, ranges2 := scan(f.t), scan(f.t2);
    var lines2 := RegionLines(f.t2, ranges2, f.start, f.End2());
    SecondRegion(f);
    forall k | 0 <= k < |f.lines| ensures KindAfter(f.lines[k], lines2[k].kind) {
      SecondLine(f, ranges, ranges2, lines2, k);
    }
    SomeCommented(f, lines2);
    NoPlainLeft(f, ranges, ranges2, lines2);
    SecondEdits(f, ranges, ranges2, lines2);
    SecondRemoved(f, ranges, ranges2, lines2);
    EditedBack(f);
    CommentsBack(f.t, ranges, f.edits, Added(f.lines, f.edits), f.t2, ranges2);
  }

  // ----- and when they do not come back --------------------------------------------------------------------

  lemma {:induction false} LinesAfterNoBreak(lines: seq<Line>, raws: seq<Str>, ls: nat)
    requires Fits(lines, raws, ls) && forall k :: 0 <= k < |raws| ==> NoBreak(raws[k])
    ensures forall k :: 0 <= k < |raws| ==> NoBreak(LinesAfter(lines, raws, ls, false)[k])
  {
    forall k | 0 <= k < |raws| ensures NoBreak(LinesAfter(lines, raws, ls, false)[k]) {
      LinesAfterAt(lines, raws, ls, false, k);
      UncommentOnlyDeletes(lines[k]);
      DeletionNoBreak(raws[k], ls + Offset(raws, k), EditsOfLine(lines[k], false));
    }
  }

  lemma {:induction false} UncommentOnlyDeletes(l: Line)
    ensures forall i :: 0 <= i < |EditsOfLine(l, false)| ==> EditsOfLine(l, false)[i].ins == []
  {
  }

  lemma {:induction false} DeletionNoBreak(raw: Str, ls: nat, es: seq<Edit>)
    requires Pair(es, ls, ls + |raw|) && NoBreak(raw)
    requires forall i :: 0 <= i < |es| ==> es[i].ins == []
    ensures NoBreak(EditLine(raw, ls, es))
  {
    if es != [] {
      var a, b, c := raw[..es[0].pos - ls], raw[es[0].pos + es[0].del - ls..es[1].pos - ls],
        raw[es[1].pos + es[1].del - ls..];
      assert [] + (b + ([] + c)) == b + c;
      assert EditLine(raw, ls, es) == a + (b + c);
    }
  }

  /** Taking a comment off makes a line shorter; any other line keeps its text. */
  lemma {:induction false} UncommentShortens(l2: Line, raw2: Str, at: nat)
    requires LineFits(l2, raw2, at) && Pair(EditsOfLine(l2, false), at, at + |raw2|)
    ensures l2.kind.Commented? ==> |EditLine(raw2, at, EditsOfLine(l2, false))| < |raw2|
    ensures !l2.kind.Commented? ==> EditLine(raw2, at, EditsOfLine(l2, false)) == raw2
  {
    var es := EditsOfLine(l2, false);
    if l2.kind.Commented? {
      assert es == Uncomment(l2);
      assert es[0].ins == [] && es[1].ins == [] && es[0].del >= 4;
    }
  }

  /** A line that is left as it is, or whose own comment is taken off too, is not what it was. */
  lemma {:induction false} LineDiffers(l: Line, l2: Line, raw: Str, raw2: Str, at: nat, es: seq<Edit>)
    requires if l.kind.Plain? then !l2.kind.Commented? else l2.kind.Commented?
    requires |raw2| == |raw| + (if l.kind.Plain? then 9 else 0)
    requires LineFits(l2, raw2, at) && es == EditsOfLine(l2, false) && Pair(es, at, at + |raw2|)
    ensures EditLine(raw2, at, es) != raw
  {
    UncommentShortens(l2, raw2, at);
    LengthsDiffer(l, l2, raw, raw2, EditLine(raw2, at, es));
  }

  lemma {:induction false} LengthsDiffer(l: Line, l2: Line, raw: Str, raw2: Str, after: Str)
    requires if l.kind.Plain? then !l2.kind.Commented? else l2.kind.Commented?
    requires |raw2| == |raw| + (if l.kind.Plain? then 9 else 0)
    requires if l2.kind.Commented? then |after| < |raw2| else after == raw2
    ensures after != raw
  {
  }

  lemma {:induction false} NotTakenBack(l: Line, kind2: Kind)
    requires !LineTakenBack(l) && KindAfter(l, kind2)
    ensures if l.kind.Plain? then !kind2.Commented? else kind2.Commented?
  {
  }

  lemma {:induction false} LineLength(f: First, k: nat)
    requires f.Valid() && k < |f.raws|
    ensures |f.raws2[k]| == |f.raws[k]| + (if f.lines[k].kind.Plain? then 9 else 0)
    ensures !f.lines[k].kind.Plain? ==> f.raws2[k] == f.raws[k]
  {
    LineText(f, k);
    CommentTextUnits(f.lines[k].body, 0);
  }

  lemma {:induction false} MiddleSlice(f: First)
    requires f.Parts()
    ensures f.End2() <= |f.t2| && f.t2[f.start..f.start + |JoinLines(f.raws2)|] == JoinLines(f.raws2)
  {
    ThreeSlices(f.t[..f.start], JoinLines(f.raws2), f.t[f.end..]);
  }

  /** Equal outer parts leave equal middles. */
  lemma {:induction false} MiddleOf(a: Str, m: Str, c: Str, n: Str)
    requires a + m + c == a + n + c
    ensures m == n
  {
    assert |a + m + c| == |a| + |m| + |c| && |a + n + c| == |a| + |n| + |c|;
    assert (a + m + c)[|a|..|a| + |m|] == m;
    assert (a + n + c)[|a|..|a| + |n|] == n;
  }

  /** Putting another middle into the new text gives the old note only with the old region. */
  lemma {:induction false} Outside(f: First, middle: Str)
    requires f.Valid() && f.End2() <= |f.t2|
    requires middle != JoinLines(f.raws)
    ensures f.t2[..f.start] + middle + f.t2[f.End2()..] != f.t
  {
    var a, c := f.t[..f.start], f.t[f.end..];
    OldParts(f.t, f.start, f.end, JoinLines(f.raws));
    ThreeSlices(a, JoinLines(f.raws2), c);
    if a + middle + c == f.t { MiddleOf(a, middle, c, JoinLines(f.raws)); }
  }

  lemma {:induction false} OldParts(t: Str, start: nat, end: nat, m: Str)
    requires start <= end <= |t| && m == t[start..end]
    ensures t == t[..start] + m + t[end..]
  {
  }

  lemma {:induction false} DifferentLines(x: seq<Str>, y: seq<Str>, k: nat)
    requires |x| == |y| && k < |x| && x[k] != y[k]
    requires (forall i :: 0 <= i < |x| ==> NoBreak(x[i])) && (forall i :: 0 <= i < |y| ==> NoBreak(y[i]))
    ensures JoinLines(x) != JoinLines(y)
  {
    SplitJoin(x);
    SplitJoin(y);
  }

  lemma {:induction false} LineAfterDiffers(l: Line, raw: Str, lines2: seq<Line>, raws2: seq<Str>, start: nat, k: nat)
    requires Fits(lines2, raws2, start) && k < |lines2|
    requires if l.kind.Plain? then !lines2[k].kind.Commented? else lines2[k].kind.Commented?
    requires |raws2[k]| == |raw| + (if l.kind.Plain? then 9 else 0)
    ensures LinesAfter(lines2, raws2, start, false)[k] != raw
  {
    LinesAfterAt(lines2, raws2, start, false, k);
    LineDiffers(l, lines2[k], raw, raws2[k], start + Offset(raws2, k), EditsOfLine(lines2[k], false));
  }

  lemma {:induction false} SomeLineDiffers(f: First, ranges: seq<Range>, ranges2: seq<Range>, lines2: seq<Line>)
    requires Checked(f, ranges, ranges2) && !AllTakenBack(f.lines)
    requires lines2 == LinesFrom(KindsOf(f.t2, ranges2), f.start, f.raws2) && Fits(lines2, f.raws2, f.start)
    ensures JoinLines(LinesAfter(lines2, f.raws2, f.start, false)) != JoinLines(f.raws)
  {
    AfterNoBreak(f.lines, f.raws, f.start);
    LinesAfterNoBreak(lines2, f.raws2, f.start);
    var k :| 0 <= k < |f.lines| && !LineTakenBack(f.lines[k]);
    SecondLine(f, ranges, ranges2, lines2, k);
    NotTakenBack(f.lines[k], lines2[k].kind);
    LineLength(f, k);
    LineAfterDiffers(f.lines[k], f.raws[k], lines2, f.raws2, f.start, k);
    DifferentLines(LinesAfter(lines2, f.raws2, f.start, false), f.raws, k);
  }

  lemma {:induction false} CommentingChanges(f: First)
    requires f.Valid() && HasKind(f.lines, Plain)
    ensures JoinLines(f.raws2) != JoinLines(f.raws)
  {
    AfterNoBreak(f.lines, f.raws, f.start);
    var k :| 0 <= k < |f.lines| && f.lines[k].kind == Plain;
    LineLength(f, k);
    DifferentLines(f.raws2, f.raws, k);
  }

  lemma {:induction false} NotRestored(f: First, scan: Scanner, unclosed: Str -> int, a2: nat, b2: nat)
    requires CommentScanner(scan) && Checked(f, scan(f.t), scan(f.t2))
    requires HasKind(f.lines, Plain) && !AllTakenBack(f.lines) && f.End2() <= |f.t2|
    ensures NoteAfter(f.t2, LineToggle(scan, unclosed, f.t2, f.start, f.End2(), a2, b2)) != f.t
  {
    var ranges, ranges2 := scan(f.t), scan(f.t2);
    var lines2 := RegionLines(f.t2, ranges2, f.start, f.End2());
    var replacement := LineToggle(scan, unclosed, f.t2, f.start, f.End2(), a2, b2).replacement;
    SecondRegion(f);
    NoPlainLeft(f, ranges, ranges2, lines2);
    Replacement(scan, unclosed, f.t2, f.start, f.End2(), a2, b2);
    CommentingChanges(f);
    SomeLineDiffers(f, ranges, ranges2, lines2);
    assert replacement != JoinLines(f.raws);
    Outside(f, replacement);
  }

  lemma {:induction false} ReplacementIs(scan: Scanner, unclosed: Str -> int, t: Str, start: nat, end: nat, a: nat,
        b: nat, lines: seq<Line>)
    requires start <= end <= |t| && lines == RegionLines(t, scan(t), start, end) && !HasKind(lines, Plain)
    ensures var r := LineToggle(scan, unclosed, t, start, end, a, b);
      r.replacement == t[start..end]
      || (Ordered(EditsOf(lines, false), start, end) && r.replacement == Apply(t, start, end, EditsOf(lines, false)))
  {
    LineEditsOrdered(t, scan(t), start, end);
  }

  /** Without a plain line a toggle leaves the region or takes comments off its lines. */
  lemma {:induction false} Replacement(scan: Scanner, unclosed: Str -> int, t: Str, start: nat, end: nat, a: nat,
        b: nat)
    requires start <= end <= |t| && !HasKind(RegionLines(t, scan(t), start, end), Plain)
    ensures var lines, raws := RegionLines(t, scan(t), start, end), SplitLines(t[start..end]);
      var r := LineToggle(scan, unclosed, t, start, end, a, b);
      Fits(lines, raws, start) &&
        (r.replacement == t[start..end] || r.replacement == JoinLines(LinesAfter(lines, raws, start, false)))
  {
    var lines, raws := RegionLines(t, scan(t), start, end), SplitLines(t[start..end]);
    assert Fits(lines, raws, start) by {
      KindsSound(t, scan(t));
      LinesFit(KindsOf(t, scan(t)), start, raws);
    }
    JoinSplit(t[start..end]);
    ApplyLines(t, lines, raws, start, end, false);
    ReplacementIs(scan, unclosed, t, start, end, a, b, lines);
  }

  /**
    Toggling twice, line style: the second key press, with the selection the first one left, gives back the
    text, and then the selection too, exactly when no line was a comment already and no line that was commented
    out now reads as a tag line. (None reads as a marker, see `NoMarkerCommented`.) The structural check of the
    second toggle needs no assumption: it passes because the first one did.
   */
  lemma {:induction false} LineRoundTrip(scan: Scanner, unclosed: Str -> int, t: Str, a: nat, b: nat)
    requires CommentScanner(scan) && a <= b <= |t|
    requires ToggleLineStyle(scan, unclosed, t, a, b).status == CommentedOut
    ensures var r := ToggleLineStyle(scan, unclosed, t, a, b);
      var t2 := NoteAfter(t, r);
      var back := ToggleLineStyle(scan, unclosed, t2, r.selStart, r.selEnd);
      var lines := RegionLines(t, scan(t), r.start, r.end);
      && (NoteAfter(t2, back) == t <==> AllTakenBack(lines))
      && (AllTakenBack(lines) ==> back.status == Uncommented && back.selStart == a && back.selEnd == b)
  {
    var start, end := LineStart(t, a), RegionEnd(t, a, b);
    KindsSound(t, scan(t));
    var f := FirstToggle(t, KindsOf(t, scan(t)), start, end);
    FirstChecked(f, scan, unclosed, a, b);
    var g := FirstGrown(f);
    RegionTwo(g, a, b);
    SecondChecked(f, scan, unclosed, a, b);
    StyleIsToggle(scan, unclosed, t, a, b);
    StyleIsToggle(scan, unclosed, f.t2, MapSelection(a, b, f.edits).0, MapSelection(a, b, f.edits).1);
  }

  /** A line whose comment would be one of md-memo's own markers is never commented out. */
  lemma {:induction false} NoMarkerCommented(scan: Scanner, unclosed: Str -> int, t: Str, a: nat, b: nat)
    requires CommentScanner(scan) && a <= b <= |t|
    requires ToggleLineStyle(scan, unclosed, t, a, b).status == CommentedOut
    ensures NoneMarked(RegionLines(t, scan(t), LineStart(t, a), RegionEnd(t, a, b)))
  {
    var start, end := LineStart(t, a), RegionEnd(t, a, b);
    KindsSound(t, scan(t));
    var f := FirstToggle(t, KindsOf(t, scan(t)), start, end);
    FirstChecked(f, scan, unclosed, a, b);
    StyleIsToggle(scan, unclosed, t, a, b);
    assert f.lines == RegionLines(t, scan(t), start, end);
    CheckedUnmarked(f, scan(f.t), scan(f.t2));
  }

  ghost predicate NoneMarked(lines: seq<Line>) {
    forall k :: 0 <= k < |lines| && lines[k].kind.Plain? ==> !HasMarker(CommentText(lines[k].body))
  }

  lemma {:induction false} CheckedUnmarked(f: First, ranges: seq<Range>, ranges2: seq<Range>)
    requires Checked(f, ranges, ranges2)
    ensures NoneMarked(f.lines)
  {
    CommentsAfter(f, ranges, ranges2);
    forall k | 0 <= k < |f.lines| && f.lines[k].kind.Plain? ensures !HasMarker(CommentText(f.lines[k].body)) {
      KindOne(f, ranges, k);
      PlainText(f.t, ranges, f.lines[k].ls, f.lines[k].body);
      NoMarkerMade(f, ranges2, k);
    }
  }

  lemma {:induction false} StyleIsToggle(scan: Scanner, unclosed: Str -> int, t: Str, a: nat, b: nat)
    requires a <= b <= |t|
    ensures ToggleLineStyle(scan, unclosed, t, a, b) == LineToggle(scan, unclosed, t, LineStart(t, a),
      RegionEnd(t, a, b), a, b)
  {
  }

  lemma {:induction false} SecondChecked(f: First, scan: Scanner, unclosed: Str -> int, a: nat, b: nat)
    requires CommentScanner(scan) && Checked(f, scan(f.t), scan(f.t2)) && HasKind(f.lines, Plain) && a <= b &&
      f.End2() <= |f.t2|
    ensures var sel := MapSelection(a, b, f.edits);
      && 0 <= sel.0 && 0 <= sel.1
      && var back := LineToggle(scan, unclosed, f.t2, f.start, f.End2(), sel.0, sel.1);
      && (NoteAfter(f.t2, back) == f.t <==> AllTakenBack(f.lines))
      && (AllTakenBack(f.lines) ==> back.status == Uncommented && back.selStart == a && back.selEnd == b)
  {
    var sel := MapSelection(a, b, f.edits);
    SelectionBack(f.edits, a, b);
    if AllTakenBack(f.lines) {
      Restored(f, scan, unclosed, sel.0, sel.1);
    } else {
      NotRestored(f, scan, unclosed, sel.0, sel.1);
    }
  }

  /** What a line-style toggle that comments lines out returns, and that its check passed. */
  lemma {:induction false} ToggleThatComments(scan: Scanner, unclosed: Str -> int, t: Str, start: nat, end: nat,
        a: nat, b: nat)
    requires start <= end <= |t| && LineToggle(scan, unclosed, t, start, end, a, b).status == CommentedOut
    ensures var lines := RegionLines(t, scan(t), start, end);
      var edits := EditsOf(lines, true);
      var r := LineToggle(scan, unclosed, t, start, end, a, b);
      && HasKind(lines, Plain) && Ordered(edits, start, end)
      && scan(Edited(t, start, end, edits)) == SortByStart(Kept(scan(t), [], edits) + Added(lines, edits))
      && NoteAfter(t, r) == Edited(t, start, end, edits) && (r.selStart, r.selEnd) == MapSelection(a, b, edits)
  {
    LineEditsOrdered(t, scan(t), start, end);
  }

  lemma {:induction false} FirstChecked(f: First, scan: Scanner, unclosed: Str -> int, a: nat, b: nat)
    requires CommentScanner(scan) && f.Valid() && f.raws == SplitLines(f.t[f.start..f.end])
    requires f.lines == LinesFrom(KindsOf(f.t, scan(f.t)), f.start, f.raws)
    requires LineToggle(scan, unclosed, f.t, f.start, f.end, a, b).status == CommentedOut
    ensures Checked(f, scan(f.t), scan(f.t2)) && HasKind(f.lines, Plain) && f.End2() <= |f.t2|
    ensures var r := LineToggle(scan, unclosed, f.t, f.start, f.end, a, b);
      NoteAfter(f.t, r) == f.t2 && (r.selStart, r.selEnd) == MapSelection(a, b, f.edits)
  {
    MiddleSlice(f);
    ToggleThatComments(scan, unclosed, f.t, f.start, f.end, a, b);
  }

  lemma {:induction false} SelectionBack(edits: seq<Edit>, a: nat, b: nat)
    requires Insertions(edits, 0) && a <= b
    ensures var sel := MapSelection(a, b, edits);
      0 <= sel.0 && 0 <= sel.1 && MapSelection(sel.0, sel.1, Inverse(edits, 0)) == (a, b)
  {
    var sel := MapSelection(a, b, edits);
    if a == b {
      InsertionsStretch(edits, 0, a, a, AtOpen, AtOpen);
      InverseMapsBack(edits, 0, 0, a, AtOpen, AtOpen);
    } else {
      InsertionsStretch(edits, 0, a, b, Never, Always);
      InverseMapsBack(edits, 0, 0, a, Never, Never);
      InverseMapsBack(edits, 0, 0, b, Always, Always);
    }
  }
}
