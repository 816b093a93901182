/**
  Inline code, said without a scan: a run of backticks opens it when no earlier span holds the run and a later run
  on the line is as long; it ends behind the first such run (section 6.1 of the CommonMark Spec, on one line).
 */
module CodeSpans {
  import opened Text
  import opened HtmlComments

  /** [q, k) is a whole run of backticks of the stretch [from, le). */
  ghost predicate RunAt(t: Str, from: nat, le: nat, q: nat, k: nat) {
    && from <= q < k <= le <= |t| && (forall i :: q <= i < k ==> t[i] == 0x60)
    && (q == from || t[q - 1] != 0x60) && (k == le || t[k] != 0x60)
  }

  /** c is the end of the first run of n backticks behind k. */
  ghost predicate Closer(t: Str, k: nat, le: nat, n: nat, c: nat) {
    && n <= c && RunAt(t, k, le, c - n, c)
    && forall r: nat, e: nat :: RunAt(t, k, le, r, e) && r < c - n ==> e - r != n
  }

  /** The run at q opens inline code that ends at c. */
  ghost predicate Opens(t: Str, from: nat, le: nat, q: nat, c: nat)
    decreases q
  {
    && (exists k: nat :: RunAt(t, from, le, q, k) && Closer(t, k, le, k - q, c))
    && forall q2: nat, c2: nat :: q2 < q && Opens(t, from, le, q2, c2) ==> c2 <= q
  }

  // ----- runs ----------------------------------------------------------------------------------------------

  lemma {:induction false} RunIs(t: Str, from: nat, le: nat, q: nat)
    requires from <= q < le && EndsAt(t, le) && t[q] == 0x60 && (q == from || t[q - 1] != 0x60)
    ensures RunAt(t, from, le, q, RunEnd(t, q, IsTick))
  {
    assert le < |t| ==> t[le] == LF;
  }

  lemma {:induction false} OneEnd(t: Str, from: nat, le: nat, q: nat, k: nat, k2: nat)
    requires RunAt(t, from, le, q, k) && RunAt(t, from, le, q, k2)
    ensures k == k2
  {
  }

  /** Two runs do not overlap. */
  lemma {:induction false} RunsApart(t: Str, from: nat, le: nat, q: nat, k: nat, q2: nat, k2: nat)
    requires RunAt(t, from, le, q, k) && RunAt(t, from, le, q2, k2) && q < q2
    ensures k < q2
  {
  }

  /** Behind a run that stops at i the runs are the same, whether they are counted from there or from before. */
  lemma {:induction false} RunsBehind(t: Str, from: nat, i: nat, le: nat, q: nat, k: nat)
    requires from <= i <= q && i <= le <= |t| && (i < le ==> t[i] != 0x60)
    ensures RunAt(t, from, le, q, k) <==> RunAt(t, i, le, q, k)
  {
    if RunAt(t, from, le, q, k) || RunAt(t, i, le, q, k) { assert t[q] == 0x60; }
  }

  lemma {:induction false} NoRunBefore(t: Str, from: nat, le: nat, q: nat, k: nat)
    requires from <= le <= |t| && RunAt(t, from, le, q, k)
    ensures TickFrom(t, from) <= q
  {
    assert t[q] == 0x60;
  }

  lemma {:induction false} NoRunBelow(t: Str, from: nat, le: nat, q: nat, k: nat)
    requires from <= le <= |t| && q < TickFrom(t, from)
    ensures !RunAt(t, from, le, q, k)
  {
    if from <= q { assert t[q] != 0x60; }
  }

  // ----- the run that closes -------------------------------------------------------------------------------

  lemma {:induction false} CloserIs(t: Str, j: nat, le: nat, n: nat, c: nat)
    requires j <= le && EndsAt(t, le)
    ensures CloseRun(t, j, le, n) == Some(c) <==> Closer(t, j, le, n, c)
    decreases le - j
  {
    var r := TickFrom(t, j);
    if r >= le {
      if Closer(t, j, le, n, c) { NoRunBefore(t, j, le, c - n, c); }
    } else {
      var s := RunEnd(t, r, IsTick);
      RunIs(t, j, le, r);
      if s - r == n {
        FirstCloser(t, j, le, n, c, r, s);
      } else {
        CloserIs(t, s, le, n, c);
        CloserBehind(t, j, le, n, c, r, s);
      }
    }
  }

  lemma {:induction false} FirstCloser(t: Str, j: nat, le: nat, n: nat, c: nat, r: nat, s: nat)
    requires j <= le && EndsAt(t, le) && r == TickFrom(t, j) && RunAt(t, j, le, r, s) && s - r == n
    ensures Closer(t, j, le, n, c) <==> c == s
  {
    forall r2: nat, e: nat | r2 < r ensures !RunAt(t, j, le, r2, e) { NoRunBelow(t, j, le, r2, e); }
    assert Closer(t, j, le, n, s);
    if Closer(t, j, le, n, c) {
      NoRunBefore(t, j, le, c - n, c);
      assert c - n == r;
    }
  }

  lemma {:induction false} CloserBehind(t: Str, j: nat, le: nat, n: nat, c: nat, r: nat, s: nat)
    requires j <= le && EndsAt(t, le) && r == TickFrom(t, j) && RunAt(t, j, le, r, s) && s - r != n
    ensures Closer(t, j, le, n, c) <==> Closer(t, s, le, n, c)
  {
    if Closer(t, j, le, n, c) {
      NoRunBefore(t, j, le, c - n, c);
      if c - n == r { OneEnd(t, j, le, r, s, c); }
      RunsApart(t, j, le, r, s, c - n, c);
      RunsBehind(t, j, s, le, c - n, c);
      forall r2: nat, e: nat | RunAt(t, s, le, r2, e) && r2 < c - n ensures e - r2 != n {
        RunsBehind(t, j, s, le, r2, e);
      }
    }
    if Closer(t, s, le, n, c) {
      RunsBehind(t, j, s, le, c - n, c);
      forall r2: nat, e: nat | RunAt(t, j, le, r2, e) && r2 < c - n ensures e - r2 != n {
        NoRunBefore(t, j, le, r2, e);
        if r2 == r { OneEnd(t, j, le, r, s, e); } else {
          RunsApart(t, j, le, r, s, r2, e);
          RunsBehind(t, j, s, le, r2, e);
        }
      }
    }
  }

  ghost predicate Unclosed(t: Str, k: nat, le: nat, n: nat) {
    forall c: nat :: !Closer(t, k, le, n, c)
  }

  lemma {:induction false} NeverCloses(t: Str, k: nat, le: nat, n: nat)
    requires k <= le && EndsAt(t, le) && CloseRun(t, k, le, n) == None
    ensures Unclosed(t, k, le, n)
  {
    forall c: nat ensures !Closer(t, k, le, n, c) { CloserIs(t, k, le, n, c); }
  }

  lemma {:induction false} OneCloser(t: Str, k: nat, le: nat, n: nat, c: nat, c2: nat)
    requires Closer(t, k, le, n, c) && Closer(t, k, le, n, c2)
    ensures c == c2
  {
    assert c - (c - n) == n && c2 - (c2 - n) == n;
  }

  // ----- spans ---------------------------------------------------------------------------------------------

  /** Nothing that opens before i reaches over it, and no run goes over it. */
  ghost predicate FreshAt(t: Str, from: nat, le: nat, i: nat) {
    && from <= i <= le <= |t| && (i < le ==> t[i] != 0x60)
    && forall q2: nat, c2: nat :: q2 < i && Opens(t, from, le, q2, c2) ==> c2 <= i
  }

  /** Then the spans behind i are the same, whether the runs are read from there or from before. */
  lemma {:induction false} SpansBehind(t: Str, from: nat, le: nat, i: nat, q: nat, c: nat)
    requires FreshAt(t, from, le, i) && i <= q
    ensures Opens(t, from, le, q, c) <==> Opens(t, i, le, q, c)
    decreases q
  {
    forall k: nat ensures RunAt(t, from, le, q, k) <==> RunAt(t, i, le, q, k) { RunsBehind(t, from, i, le, q, k); }
    forall q2: nat, c2: nat | i <= q2 < q ensures Opens(t, from, le, q2, c2) <==> Opens(t, i, le, q2, c2) {
      SpansBehind(t, from, le, i, q2, c2);
    }
    forall q2: nat, c2: nat | q2 < i ensures !Opens(t, i, le, q2, c2) {
      assert forall k: nat :: !RunAt(t, i, le, q2, k);
    }
  }

  /** Inline code around p. */
  ghost predicate CodeAround(t: Str, from: nat, le: nat, p: nat, c: nat) {
    exists q: nat :: q < p < c && Opens(t, from, le, q, c)
  }

  /** The scan finds the end of the inline code that holds p, and nothing when none does. */
  lemma {:induction false} SpanIs(t: Str, i: nat, p: nat, le: nat, c: nat)
    requires i <= le && p < le && EndsAt(t, le) && t[p] != 0x60
    ensures SpanEnd(t, i, p, le) == Some(c) <==> CodeAround(t, i, le, p, c)
    decreases le - i
  {
    var q := TickFrom(t, i);
    if i >= p || q >= p {
      NoSpan(t, i, p, le, c, q);
    } else {
      var k := RunEnd(t, q, IsTick);
      RunIs(t, i, le, q);
      match CloseRun(t, k, le, k - q)
      case None =>
        SpanIs(t, k, p, le, c);
        RunOpensNone(t, i, le, q, k, p, c);
      case Some(e) =>
        CloserIs(t, k, le, k - q, e);
        if e <= p { SpanIs(t, e, p, le, c); }
        RunOpens(t, i, le, q, k, e, p, c);
    }
  }

  lemma {:induction false} RunOpensNone(t: Str, i: nat, le: nat, q: nat, k: nat, p: nat, c: nat)
    requires i <= le && EndsAt(t, le) && q == TickFrom(t, i) && RunAt(t, i, le, q, k) && q < p < le && t[p] != 0x60
    requires CloseRun(t, k, le, k - q) == None
    ensures CodeAround(t, i, le, p, c) <==> CodeAround(t, k, le, p, c)
  {
    NeverCloses(t, k, le, k - q);
    NotOpening(t, i, le, q, k);
    AroundBehind(t, i, le, k, p, c);
  }

  lemma {:induction false} RunOpens(t: Str, i: nat, le: nat, q: nat, k: nat, e: nat, p: nat, c: nat)
    requires i <= le && EndsAt(t, le) && q == TickFrom(t, i) && RunAt(t, i, le, q, k) && q < p < le && t[p] != 0x60
    requires Closer(t, k, le, k - q, e)
    ensures k < e <= le
    ensures if e > p then CodeAround(t, i, le, p, c) <==> c == e
      else CodeAround(t, i, le, p, c) <==> CodeAround(t, e, le, p, c)
  {
    FirstOpens(t, i, le, q, k, e);
    if e > p { OnlySpan(t, i, le, q, k, e, p, c); } else { AroundBehind(t, i, le, e, p, c); }
  }

  lemma {:induction false} NoSpan(t: Str, i: nat, p: nat, le: nat, c: nat, q: nat)
    requires i <= le && p < le && EndsAt(t, le) && q == TickFrom(t, i) && (i >= p || q >= p)
    ensures !CodeAround(t, i, le, p, c)
  {
    forall q2: nat | q2 < p ensures !Opens(t, i, le, q2, c) {
      forall k: nat ensures !RunAt(t, i, le, q2, k) {
        if RunAt(t, i, le, q2, k) { NoRunBefore(t, i, le, q2, k); }
      }
    }
  }

  /** No run before the first. */
  lemma {:induction false} OpensFrom(t: Str, i: nat, le: nat, q: nat, c: nat)
    requires i <= le <= |t| && q < TickFrom(t, i)
    ensures !Opens(t, i, le, q, c)
  {
    forall k: nat ensures !RunAt(t, i, le, q, k) {
      if RunAt(t, i, le, q, k) { NoRunBefore(t, i, le, q, k); }
    }
  }

  lemma {:induction false} NotOpening(t: Str, i: nat, le: nat, q: nat, k: nat)
    requires i <= le <= |t| && q == TickFrom(t, i) && RunAt(t, i, le, q, k)
    requires Unclosed(t, k, le, k - q)
    ensures FreshAt(t, i, le, k)
  {
    forall q2: nat, c2: nat | q2 < k ensures !Opens(t, i, le, q2, c2) {
      if q2 < q { OpensFrom(t, i, le, q2, c2); } else { OpensNothing(t, i, le, q, k, q2, c2); }
    }
  }

  lemma {:induction false} OpensNothing(t: Str, i: nat, le: nat, q: nat, k: nat, q2: nat, c2: nat)
    requires RunAt(t, i, le, q, k) && Unclosed(t, k, le, k - q) && q <= q2 < k
    ensures !Opens(t, i, le, q2, c2)
  {
    forall k2: nat ensures !(RunAt(t, i, le, q2, k2) && Closer(t, k2, le, k2 - q2, c2)) {
      if q < q2 {
        assert t[q2 - 1] == 0x60;
      } else if RunAt(t, i, le, q, k2) {
        OneEnd(t, i, le, q, k, k2);
      }
    }
  }

  lemma {:induction false} FirstOpens(t: Str, i: nat, le: nat, q: nat, k: nat, e: nat)
    requires i <= le <= |t| && q == TickFrom(t, i) && RunAt(t, i, le, q, k) && Closer(t, k, le, k - q, e)
    ensures k < e <= le && Opens(t, i, le, q, e) && FreshAt(t, i, le, e)
  {
    forall q2: nat, c2: nat | q2 < q ensures !Opens(t, i, le, q2, c2) { OpensFrom(t, i, le, q2, c2); }
    assert Opens(t, i, le, q, e);
    forall q2: nat, c2: nat | q2 < e && Opens(t, i, le, q2, c2) ensures c2 <= e {
      FirstSpan(t, i, le, q, k, e, q2, c2);
    }
  }

  /** Up to where the first span ends it is the only one. */
  lemma {:induction false} FirstSpan(t: Str, i: nat, le: nat, q: nat, k: nat, e: nat, q2: nat, c2: nat)
    requires i <= le <= |t| && q == TickFrom(t, i) && RunAt(t, i, le, q, k) && Closer(t, k, le, k - q, e)
    requires Opens(t, i, le, q, e) && q2 < e && Opens(t, i, le, q2, c2)
    ensures q2 == q && c2 == e
  {
    if q2 < q { OpensFrom(t, i, le, q2, c2); }
    if q2 == q {
      var k2: nat :| RunAt(t, i, le, q2, k2) && Closer(t, k2, le, k2 - q2, c2);
      OneEnd(t, i, le, q, k, k2);
      OneCloser(t, k, le, k - q, e, c2);
    }
  }

  lemma {:induction false} OnlySpan(t: Str, i: nat, le: nat, q: nat, k: nat, e: nat, p: nat, c: nat)
    requires i <= le <= |t| && q == TickFrom(t, i) && RunAt(t, i, le, q, k) && Closer(t, k, le, k - q, e)
    requires Opens(t, i, le, q, e) && q < p < e
    ensures CodeAround(t, i, le, p, c) <==> c == e
  {
    if CodeAround(t, i, le, p, c) {
      var q2: nat :| q2 < p < c && Opens(t, i, le, q2, c);
      FirstSpan(t, i, le, q, k, e, q2, c);
    }
  }

  lemma {:induction false} AroundBehind(t: Str, from: nat, le: nat, i: nat, p: nat, c: nat)
    requires FreshAt(t, from, le, i) && i <= p
    ensures CodeAround(t, from, le, p, c) <==> CodeAround(t, i, le, p, c)
  {
    forall q: nat | i <= q ensures Opens(t, from, le, q, c) <==> Opens(t, i, le, q, c) {
      SpansBehind(t, from, le, i, q, c);
    }
    forall q: nat | q < i ensures !Opens(t, i, le, q, c) { assert forall k: nat :: !RunAt(t, i, le, q, k); }
  }
}
