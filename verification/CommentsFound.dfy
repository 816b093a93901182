/**
  That the scanner of HTML comments misses none: every "<!--" of a text is in a comment it reports, in one of
  md-memo's own markers, in inline code, in a code fence, or behind one that never ends.
 */
module CommentsFound {
  import opened Text
  import opened Markers
  import opened Fences
  import opened CommentToggle
  import opened HtmlComments
  import opened CodeSpans

  /** The text of a marker, up to the first "-->" that can end it. */
  ghost predicate InMarker(rules: Rules, t: Str, p: nat) {
    exists m: nat :: rules.marker(m) && CommentAround(t, m, p)
  }

  ghost predicate CommentAround(t: Str, m: nat, p: nat) {
    m <= p && OpensAt(t, m) && ArrowFrom(t, m + 2) < |t| && p < ArrowFrom(t, m + 2) + 3
  }

  ghost predicate InRange(ranges: seq<Range>, p: nat) {
    exists i :: 0 <= i < |ranges| && ranges[i].start <= p < ranges[i].end
  }

  /** A place from which runs of backticks are read: the start of the line, or the end of a comment. */
  ghost predicate CodeStart(t: Str, from: nat, ls: nat) {
    from == ls || exists m: nat :: OpensAt(t, m) && ArrowFrom(t, m + 2) < |t| && ArrowFrom(t, m + 2) + 3 == from
  }

  ghost predicate InCode(t: Str, p: nat)
    requires p <= |t|
  {
    exists from: nat, c: nat ::
      CodeStart(t, from, LineStart(t, p)) && CodeAround(t, from, NextBreak(t, p), p, c)
  }

  /** A fence that was opened at or before the line, and closed by no line between. */
  ghost predicate FencedLine(fences: FenceAt, t: Str, ls: nat) {
    exists o: nat, f: Fence :: OpenedAt(fences, t, o, f) && o <= ls && StillOpen(fences, t, o, ls, f)
  }

  ghost predicate OpenedAt(fences: FenceAt, t: Str, o: nat, f: Fence) {
    IsLineStart(t, o) && fences(o) == Some(f)
  }

  ghost predicate StillOpen(fences: FenceAt, t: Str, o: nat, ls: nat, f: Fence) {
    forall m: nat :: o < m < ls && IsLineStart(t, m) ==> !Closes(f, fences(m))
  }

  /** Why a "<!--" at p does not start a comment that is reported, or that it does. */
  ghost predicate Excused(rules: Rules, t: Str, s: Scanned, p: nat)
    requires p <= |t|
  {
    InRange(s.ranges, p) || InMarker(rules, t, p) || InCode(t, p) || FencedLine(rules.fences, t, LineStart(t, p)) ||
    (s.unclosed != -1 && s.unclosed <= p)
  }

  ghost predicate AllExcused(rules: Rules, t: Str, s: Scanned, lo: nat) {
    forall p: nat :: lo <= p <= |t| && OpensAt(t, p) ==> Excused(rules, t, s, p)
  }

  lemma {:induction false} ExcusedMore(rules: Rules, t: Str, s: Scanned, r: Range, p: nat)
    requires p <= |t| && Excused(rules, t, s, p)
    ensures Excused(rules, t, Before([r], s), p)
  {
    if InRange(s.ranges, p) {
      var i :| 0 <= i < |s.ranges| && s.ranges[i].start <= p < s.ranges[i].end;
      assert Before([r], s).ranges[i + 1] == s.ranges[i];
    }
  }

  // ----- lines in fences -----------------------------------------------------------------------------------

  /** The fence that is open before a line was opened by an earlier one. */
  ghost predicate OpenSince(fences: FenceAt, t: Str, ls: nat, open: Option<Fence>) {
    open.Some? ==>
      exists o: nat :: OpenedAt(fences, t, o, open.value) && o < ls && StillOpen(fences, t, o, ls, open.value)
  }

  lemma {:induction false} FenceGoesOn(fences: FenceAt, t: Str, ls: nat, le: nat, open: Option<Fence>)
    requires IsLineStart(t, ls) && le == NextBreak(t, ls) && OpenSince(fences, t, ls, open)
    ensures open.Some? || fences(ls).Some? ==> FencedLine(fences, t, ls)
    ensures OpenSince(fences, t, le + 1, Step(open, fences(ls)))
  {
    var f, next := fences(ls), Step(open, fences(ls));
    if open.Some? {
      var o: nat :| OpenedAt(fences, t, o, open.value) && o < ls && StillOpen(fences, t, o, ls, open.value);
      if next.Some? {
        forall m: nat | o < m < le + 1 && IsLineStart(t, m) ensures !Closes(open.value, fences(m)) {
          if m > ls { NoLineBetween(t, ls, le, m); }
        }
        assert StillOpen(fences, t, o, le + 1, open.value);
      }
    } else if f.Some? {
      assert OpenedAt(fences, t, ls, f.value) && StillOpen(fences, t, ls, ls, f.value);
      forall m: nat | ls < m < le + 1 ensures !IsLineStart(t, m) { NoLineBetween(t, ls, le, m); }
      assert StillOpen(fences, t, ls, le + 1, f.value);
    }
  }

  lemma {:induction false} NoLineBetween(t: Str, ls: nat, le: nat, m: nat)
    requires ls <= |t| && le == NextBreak(t, ls) && ls < m <= le
    ensures !IsLineStart(t, m)
  {
  }

  lemma {:induction false} LineHeld(t: Str, ls: nat, le: nat, p: nat)
    requires IsLineStart(t, ls) && le == NextBreak(t, ls) && ls <= p <= le
    ensures LineStart(t, p) == ls
  {
    LineStartIs(t, p, ls);
  }

  // ----- nothing is missed ---------------------------------------------------------------------------------

  lemma {:induction false} LinesMissNone(rules: Rules, t: Str, ls: nat, open: Option<Fence>)
    requires (ls <= |t| ==> IsLineStart(t, ls)) && OpenSince(rules.fences, t, ls, open)
    ensures AllExcused(rules, t, ScanLines(rules, t, ls, open), ls)
    decreases |t| + 1 - ls, 1
  {
    if ls < |t| && OpenFrom(t, ls) < |t| {
      var le, f := NextBreak(t, ls), rules.fences(ls);
      FenceGoesOn(rules.fences, t, ls, le, open);
      if open.Some? || f.Some? {
        LinesMissNone(rules, t, le + 1, Step(open, f));
        FenceBranch(rules, t, ls, le, open);
      } else {
        LineStretch(t, ls, le);
        CommentsMissNone(rules, t, ls, le, ls);
        PlainBranch(rules, t, ls, le, open);
      }
    } else {
      NoneFrom(rules, t, ScanLines(rules, t, ls, open), ls);
    }
  }

  lemma {:induction false} LineStretch(t: Str, ls: nat, le: nat)
    requires IsLineStart(t, ls) && le == NextBreak(t, ls)
    ensures Stretch(t, ls, ls, le)
  {
    LineHeld(t, ls, le, ls);
  }

  lemma {:induction false} PlainBranch(rules: Rules, t: Str, ls: nat, le: nat, open: Option<Fence>)
    requires ls < |t| && OpenFrom(t, ls) < |t| && le == NextBreak(t, ls) && open.None? && rules.fences(ls).None?
    requires AllExcused(rules, t, ScanComments(rules, t, ls, le), ls)
    ensures AllExcused(rules, t, ScanLines(rules, t, ls, open), ls)
  {
  }

  lemma {:induction false} FenceBranch(rules: Rules, t: Str, ls: nat, le: nat, open: Option<Fence>)
    requires ls < |t| && OpenFrom(t, ls) < |t| && IsLineStart(t, ls) && le == NextBreak(t, ls)
    requires (open.Some? || rules.fences(ls).Some?) && FencedLine(rules.fences, t, ls)
    requires AllExcused(rules, t, ScanLines(rules, t, le + 1, Step(open, rules.fences(ls))), le + 1)
    ensures AllExcused(rules, t, ScanLines(rules, t, ls, open), ls)
  {
    FenceLineExcused(rules, t, ScanLines(rules, t, ls, open), ls, le);
  }

  lemma {:induction false} NoneFrom(rules: Rules, t: Str, s: Scanned, lo: nat)
    requires lo >= |t| || OpenFrom(t, lo) == |t|
    ensures AllExcused(rules, t, s, lo)
  {
  }

  lemma {:induction false} FenceLineExcused(rules: Rules, t: Str, s: Scanned, ls: nat, le: nat)
    requires IsLineStart(t, ls) && le == NextBreak(t, ls) && FencedLine(rules.fences, t, ls)
    requires AllExcused(rules, t, s, le + 1)
    ensures AllExcused(rules, t, s, ls)
  {
    forall p: nat | ls <= p <= |t| && OpensAt(t, p) ensures Excused(rules, t, s, p) {
      if p <= le { LineHeld(t, ls, le, p); }
    }
  }

  /** `base` is where the runs of backticks of this stretch are read from. */
  ghost predicate Stretch(t: Str, base: nat, from: nat, le: nat) {
    && from <= le && EndsAt(t, le) && le == NextBreak(t, from) && CodeStart(t, base, LineStart(t, from))
    && (base == from || FreshAt(t, base, le, from))
  }

  lemma {:induction false} CommentsMissNone(rules: Rules, t: Str, from: nat, le: nat, base: nat)
    requires from <= |t| && Stretch(t, base, from, le)
    ensures AllExcused(rules, t, ScanComments(rules, t, from, le), from)
    decreases |t| + 1 - from, 0
  {
    var p := OpenFrom(t, from);
    if p >= le {
      LinesMissNone(rules, t, le + 1, None);
      LineBranch(rules, t, from, le);
    } else if SpanEnd(t, from, p, le).Some? {
      var c := SpanEnd(t, from, p, le).value;
      CodeStretch(t, base, from, le, p, c);
      CommentsMissNone(rules, t, c, le, base);
      CodeBranch(rules, t, base, from, le, p, c);
    } else if ArrowFrom(t, p + 2) == |t| {
      LastBranch(rules, t, from, le);
    } else {
      var end := ArrowFrom(t, p + 2) + 3;
      var next := LineOf(t, end, le);
      EndStretch(t, from, le, p, end, next);
      CommentsMissNone(rules, t, end, next, end);
      CommentExcused(rules, t, from, le, p, end, ScanComments(rules, t, end, next));
    }
  }

  lemma {:induction false} LineHasNone(rules: Rules, t: Str, s: Scanned, from: nat, le: nat)
    requires from <= le && EndsAt(t, le) && OpenFrom(t, from) >= le && AllExcused(rules, t, s, le + 1)
    ensures AllExcused(rules, t, s, from)
  {
    forall p: nat | from <= p <= |t| && OpensAt(t, p) ensures Excused(rules, t, s, p) { assert p >= le && p != le; }
  }

  lemma {:induction false} LineBranch(rules: Rules, t: Str, from: nat, le: nat)
    requires from <= le && EndsAt(t, le) && OpenFrom(t, from) >= le
    requires AllExcused(rules, t, ScanLines(rules, t, le + 1, None), le + 1)
    ensures AllExcused(rules, t, ScanComments(rules, t, from, le), from)
  {
    LineHasNone(rules, t, ScanLines(rules, t, le + 1, None), from, le);
  }

  lemma {:induction false} LastBranch(rules: Rules, t: Str, from: nat, le: nat)
    requires from <= le && EndsAt(t, le) && OpenFrom(t, from) < le
    requires SpanEnd(t, from, OpenFrom(t, from), le).None? && ArrowFrom(t, OpenFrom(t, from) + 2) == |t|
    ensures AllExcused(rules, t, ScanComments(rules, t, from, le), from)
  {
    LastStep(rules, t, from, le);
  }

  /** Inline code that goes on behind p: the pass goes on at its end. */
  lemma {:induction false} CodeStretch(t: Str, base: nat, from: nat, le: nat, p: nat, c: nat)
    requires Stretch(t, base, from, le) && from <= p < le && OpensAt(t, p) && SpanEnd(t, from, p, le) == Some(c)
    ensures from < c <= le && Stretch(t, base, c, le) && CodeAround(t, base, le, p, c)
  {
    SpanIs(t, from, p, le, c);
    BreakIs(t, c, le);
    SameStart(t, from, c, le);
    if base != from { AroundBehind(t, base, le, from, p, c); }
    assert CodeAround(t, base, le, p, c);
    SpanFresh(t, base, le, p, c);
  }

  lemma {:induction false} SameStart(t: Str, from: nat, c: nat, le: nat)
    requires from <= c <= le <= |t| && forall k :: from <= k < le ==> t[k] != LF
    ensures LineStart(t, c) == LineStart(t, from)
  {
    LineStartIs(t, c, LineStart(t, from));
  }

  /** Nothing reaches over the end of a span. */
  lemma {:induction false} SpanFresh(t: Str, base: nat, le: nat, p: nat, c: nat)
    requires CodeAround(t, base, le, p, c)
    ensures c <= le && FreshAt(t, base, le, c)
  {
    var q: nat :| q < p < c && Opens(t, base, le, q, c);
    var k: nat :| RunAt(t, base, le, q, k) && Closer(t, k, le, k - q, c);
    forall q2: nat, c2: nat | q2 < c && Opens(t, base, le, q2, c2) ensures c2 <= c {
      SpanNotOver(t, base, le, q, k, c, q2, c2);
    }
  }

  lemma {:induction false} SpanNotOver(t: Str, base: nat, le: nat, q: nat, k: nat, c: nat, q2: nat, c2: nat)
    requires Opens(t, base, le, q, c) && RunAt(t, base, le, q, k) && Closer(t, k, le, k - q, c)
    requires q2 < c && Opens(t, base, le, q2, c2)
    ensures c2 <= c
  {
    if q2 == q {
      var k2: nat :| RunAt(t, base, le, q2, k2) && Closer(t, k2, le, k2 - q2, c2);
      OneEnd(t, base, le, q, k, k2);
      OneCloser(t, k, le, k - q, c, c2);
    }
  }

  lemma {:induction false} CodeExcused(rules: Rules, t: Str, s: Scanned, base: nat, from: nat, le: nat, p: nat, c: nat)
    requires Stretch(t, base, from, le) && p == OpenFrom(t, from) < le && CodeAround(t, base, le, p, c) && c <= le
    requires AllExcused(rules, t, s, c)
    ensures AllExcused(rules, t, s, from)
  {
    var q: nat :| q < p < c && Opens(t, base, le, q, c);
    forall u: nat | from <= u <= |t| && OpensAt(t, u) ensures Excused(rules, t, s, u) {
      if u < c {
        assert u >= p;
        assert CodeAround(t, base, le, u, c);
        SameStart(t, from, u, le);
        BreakIs(t, u, le);
        assert InCode(t, u);
      }
    }
  }

  lemma {:induction false} CodeBranch(rules: Rules, t: Str, base: nat, from: nat, le: nat, p: nat, c: nat)
    requires Stretch(t, base, from, le) && p == OpenFrom(t, from) < le && SpanEnd(t, from, p, le) == Some(c) && c <= le
    requires CodeAround(t, base, le, p, c) && AllExcused(rules, t, ScanComments(rules, t, c, le), c)
    ensures AllExcused(rules, t, ScanComments(rules, t, from, le), from)
  {
    CodeStep(rules, t, from, le, c);
    CodeExcused(rules, t, ScanComments(rules, t, from, le), base, from, le, p, c);
  }

  lemma {:induction false} EndStretch(t: Str, from: nat, le: nat, p: nat, end: nat, next: nat)
    requires from <= le && EndsAt(t, le) && le == NextBreak(t, from) && p == OpenFrom(t, from) < le
    requires ArrowFrom(t, p + 2) < |t| && end == ArrowFrom(t, p + 2) + 3 && next == LineOf(t, end, le)
    ensures from < end <= |t| && Stretch(t, end, end, next)
  {
    if end <= le { BreakIs(t, end, le); }
    assert OpensAt(t, p);
  }

  lemma {:induction false} CommentExcused(rules: Rules, t: Str, from: nat, le: nat, p: nat, end: nat, rest: Scanned)
    requires AtComment(rules, t, from, le, p, rest) && end == ArrowFrom(t, p + 2) + 3
    requires AllExcused(rules, t, rest, end)
    ensures AllExcused(rules, t, ScanComments(rules, t, from, le), from)
  {
    var s := ScanComments(rules, t, from, le);
    CommentStep(rules, t, from, le, p, rest);
    forall u: nat | from <= u <= |t| && OpensAt(t, u) ensures Excused(rules, t, s, u) {
      if u < end {
        assert p <= u;
        if rules.marker(p) { assert CommentAround(t, p, u); } else { assert s.ranges[0] == Range(p, end); }
      } else if !rules.marker(p) {
        ExcusedMore(rules, t, rest, Range(p, end), u);
      }
    }
  }

  /** Every "<!--" of a text is reported as a comment, or there is a reason why not. */
  lemma {:induction false} NoneMissed(t: Str, p: nat)
    requires p <= |t| && OpensAt(t, p)
    ensures Excused(RulesOf(t), t, Scan(t), p)
  {
    LinesMissNone(RulesOf(t), t, 0, None);
  }

  lemma {:induction false} NoCode(t: Str, p: nat)
    requires p <= |t| && forall k :: 0 <= k < |t| ==> t[k] != BACKTICK
    ensures !InCode(t, p)
  {
    forall from: nat, le: nat, q: nat, k: nat ensures !RunAt(t, from, le, q, k) {
      assert q < |t| ==> t[q] != 0x60;
    }
    forall from: nat, le: nat, q: nat, c: nat ensures !Opens(t, from, le, q, c) {}
  }

  lemma {:induction false} NoFence(t: Str, ls: nat)
    requires forall k :: 0 <= k < |t| ==> t[k] != BACKTICK && t[k] != TILDE
    ensures !FencedLine(FencesOf(t), t, ls)
  {
    forall o: nat, f: Fence ensures !OpenedAt(FencesOf(t), t, o, f) {
      if OpenedAt(FencesOf(t), t, o, f) {
        FenceHasTriple(t, o);
        assert false;
      }
    }
  }

  /** Without backticks and tildes there is no code: only markers are left out, and what an unclosed "<!--" hides. */
  lemma {:induction false} NoneMissedInText(t: Str, p: nat)
    requires p <= |t| && OpensAt(t, p) && (forall k :: 0 <= k < |t| ==> t[k] != BACKTICK && t[k] != TILDE)
    ensures InRange(Scan(t).ranges, p) || (exists m: nat :: MarkerAt(t, m) && CommentAround(t, m, p)) ||
      (Scan(t).unclosed != -1 && Scan(t).unclosed <= p)
  {
    NoneMissed(t, p);
    NoCode(t, p);
    NoFence(t, LineStart(t, p));
    if InMarker(RulesOf(t), t, p) {
      var m: nat :| RulesOf(t).marker(m) && CommentAround(t, m, p);
      assert MarkerAt(t, m);
    }
  }
}
