/**
  JavaScript strings as the page holds them: sequences of UTF-16 code units, unpaired surrogates
  included, with the few string operations the note scanners share. Every index is a code-unit index,
  which is what a textarea reports.
 */
module Text {

  type CodeUnit = u: int | 0 <= u < 0x1_0000
  type Str = seq<CodeUnit>

  const TAB: CodeUnit := 0x09
  const LF: CodeUnit := 0x0A
  const CR: CodeUnit := 0x0D
  const SPACE: CodeUnit := 0x20
  const IDEOGRAPHIC_SPACE: CodeUnit := 0x3000

  datatype Option<+T> = None | Some(value: T)

  /** The members of the regular-expression class \s. */
  predicate IsSpace(c: CodeUnit) {
    0x09 <= c <= 0x0D || c == SPACE || c == 0xA0 || c == 0x1680 || 0x2000 <= c <= 0x200A ||
    c == 0x2028 || c == 0x2029 || c == 0x202F || c == 0x205F || c == IDEOGRAPHIC_SPACE || c == 0xFEFF
  }

  /** The class [ \t　] of the notation scanners: blanks inside one line. */
  predicate IsBlank(c: CodeUnit) {
    c == SPACE || c == TAB || c == IDEOGRAPHIC_SPACE
  }

  predicate AllSpace(s: Str) {
    forall k :: 0 <= k < |s| ==> IsSpace(s[k])
  }

  ghost predicate NoBreak(s: Str) {
    forall k :: 0 <= k < |s| ==> s[k] != LF
  }

  /** Does w stand in s at index i? */
  predicate At(s: Str, i: nat, w: Str) {
    i + |w| <= |s| && s[i..i + |w|] == w
  }

  /** The first line feed at or after `from`, or the length of the text. */
  function NextBreak(s: Str, from: nat): (e: nat)
    requires from <= |s|
    ensures from <= e <= |s|
    ensures e < |s| ==> s[e] == LF
    ensures forall k :: from <= k < e ==> s[k] != LF
    decreases |s| - from
  {
    if from == |s| || s[from] == LF then from else NextBreak(s, from + 1)
  }

  /** Where the line that holds index i starts. */
  function LineStart(s: Str, i: nat): (ls: nat)
    requires i <= |s|
    ensures ls <= i
    ensures ls > 0 ==> s[ls - 1] == LF
    ensures forall k :: ls <= k < i ==> s[k] != LF
  {
    if i == 0 || s[i - 1] == LF then i else LineStart(s, i - 1)
  }

  /** The end of the last line that a selection [a, b) has a unit of, or of the caret's line. */
  function TouchedEnd(t: Str, a: nat, b: nat): (e: nat)
    requires a <= b <= |t|
    ensures a <= e <= |t|
  {
    NextBreak(t, if b > a then b - 1 else b)
  }

  /** The end of the line that holds index i, without its line feed and without a carriage return before it. */
  function LineEnd(s: Str, i: nat): (e: nat)
    requires i <= |s|
    ensures i <= e <= NextBreak(s, i)
  {
    var e := NextBreak(s, i);
    if e > i && s[e - 1] == CR then e - 1 else e
  }

  /** How many units at the front of s (from index i) satisfy p. */
  function RunEnd(s: Str, i: nat, p: CodeUnit -> bool): (e: nat)
    requires i <= |s|
    ensures i <= e <= |s|
    ensures forall k :: i <= k < e ==> p(s[k])
    ensures e < |s| ==> !p(s[e])
    decreases |s| - i
  {
    if i < |s| && p(s[i]) then RunEnd(s, i + 1, p) else i
  }

  /** The run that ends at index i (exclusive) starts here. */
  function RunStart(s: Str, i: nat, p: CodeUnit -> bool): (b: nat)
    requires i <= |s|
    ensures b <= i
    ensures forall k :: b <= k < i ==> p(s[k])
    ensures b > 0 ==> !p(s[b - 1])
  {
    if i > 0 && p(s[i - 1]) then RunStart(s, i - 1, p) else i
  }

  /** White space off both ends; an all-space text becomes empty. */
  function Trim(s: Str): (r: Str)
    ensures r != [] ==> !IsSpace(r[0]) && !IsSpace(r[|r| - 1])
    ensures r == [] <==> AllSpace(s)
    ensures NoBreak(s) ==> NoBreak(r)
  {
    var b := RunEnd(s, 0, IsSpace);
    var e := RunStart(s, |s|, IsSpace);
    if b < e then s[b..e] else []
  }

  /** A text with white space only around a core that neither starts nor ends with any trims to that core. */
  lemma TrimCore(left: Str, core: Str, right: Str)
    requires AllSpace(left) && AllSpace(right)
    requires core != [] ==> !IsSpace(core[0]) && !IsSpace(core[|core| - 1])
    ensures Trim(left + core + right) == core
  {
    var s := left + core + right;
    var b := RunEnd(s, 0, IsSpace);
    var e := RunStart(s, |s|, IsSpace);
    if core == [] {
      assert AllSpace(s) by {
        forall k | 0 <= k < |s| ensures IsSpace(s[k]) {
          assert s[k] == if k < |left| then left[k] else right[k - |left|];
        }
      }
    } else {
      assert s[|left|] == core[0];
      assert s[|left| + |core| - 1] == core[|core| - 1];
      assert forall k :: 0 <= k < |left| ==> s[k] == left[k];
      assert b == |left|;
      assert forall k :: |left| + |core| <= k < |s| ==> s[k] == right[k - |left| - |core|];
      assert e == |left| + |core|;
      assert s[b..e] == core;
    }
  }

  lemma SliceOfSlice(s: Str, a: nat, b: nat, c: nat, d: nat)
    requires a <= b <= |s| && c <= d <= b - a
    ensures s[a..b][c..d] == s[a + c..a + d]
  {
    var u := s[a..b];
    assert forall k :: c <= k < d ==> u[k] == s[a + k];
  }

  lemma Associate(a: Str, b: Str, c: Str)
    ensures a + (b + c) == (a + b) + c
  {
  }

  lemma AssociateFive(a: Str, b: Str, c: Str, d: Str, e: Str, f: Str)
    ensures (a + (b + (c + (d + e)))) + f == a + (b + (c + (d + (e + f))))
  {
    Associate(a, b + (c + (d + e)), f);
    Associate(b, c + (d + e), f);
    Associate(c, d + e, f);
    Associate(d, e, f);
  }

  /** The three parts of a text and where the units of the first and the last stand. */
  lemma ThreeParts(a: Str, b: Str, c: Str, k: nat)
    ensures k < |a| ==> (a + (b + c))[k] == a[k]
    ensures k < |b| ==> (a + (b + c))[|a| + k] == b[k]
    ensures k < |c| ==> (a + (b + c))[|a| + |b| + k] == c[k]
  {
  }

  lemma MiddlePart(a: Str, b: Str, c: Str)
    ensures (a + (b + c))[|a|..|a| + |b|] == b
  {
  }

  lemma SliceJoin(s: Str, a: nat, b: nat, c: nat)
    requires a <= b <= c <= |s|
    ensures s[a..b] + s[b..c] == s[a..c]
  {
  }

  /** One more piece moved from the front of what is left to the end of what is done. */
  lemma AppendStep<T>(done: seq<T>, piece: seq<T>, left: seq<T>)
    ensures (done + piece) + left == done + (piece + left)
  {
  }

  lemma RunEndIs(s: Str, i: nat, e: nat, p: CodeUnit -> bool)
    requires i <= e <= |s| && (e < |s| ==> !p(s[e])) && forall k :: i <= k < e ==> p(s[k])
    ensures RunEnd(s, i, p) == e
  {
  }

  lemma RunStartIs(s: Str, i: nat, b: nat, p: CodeUnit -> bool)
    requires b <= i <= |s| && (b > 0 ==> !p(s[b - 1])) && forall k :: b <= k < i ==> p(s[k])
    ensures RunStart(s, i, p) == b
  {
  }

  /** A run does not depend on what comes before it. */
  lemma {:induction false} RunEndShift(s: Str, i: nat, k: nat, p: CodeUnit -> bool)
    requires i + k <= |s|
    ensures RunEnd(s, i + k, p) == i + RunEnd(s[i..], k, p)
    decreases |s| - i - k
  {
    if i + k < |s| {
      assert s[i..][k] == s[i + k];
      if p(s[i + k]) { RunEndShift(s, i, k + 1, p); }
    }
  }

  /** Two texts that agree up to n have the same runs below n. */
  lemma {:induction false} RunEndAgree(a: Str, b: Str, k: nat, n: nat, p: CodeUnit -> bool)
    requires k <= n <= |a| && n <= |b| && a[..n] == b[..n] && RunEnd(a, k, p) < n
    ensures RunEnd(b, k, p) == RunEnd(a, k, p)
    decreases n - k
  {
    assert a[..n][k] == a[k] && b[..n][k] == b[k];
    if p(a[k]) { RunEndAgree(a, b, k + 1, n, p); }
  }

  lemma DropDrop(s: Str, a: nat, b: nat)
    requires a + b <= |s|
    ensures s[a..][b..] == s[a + b..]
  {
  }

  lemma SliceTail(s: Str, a: nat, b: nat, i: nat)
    requires a + i <= b <= |s|
    ensures s[a..b][i..] == s[a + i..][..b - a - i]
  {
    SliceOfSlice(s, a, b, i, b - a);
  }

  /** What may follow the last line of a piece: nothing, or the end of that line. */
  predicate EndsLine(post: Str) {
    post == [] || post[0] == LF || (post[0] == CR && (|post| == 1 || post[1] == LF))
  }

  /** A line of the text, known by its units. */
  lemma {:induction false} LineIs(t: Str, p: nat, line: Str, post: Str)
    requires p <= |t| && t[p..] == line + post && NoBreak(line) && EndsLine(post) && line != [] &&
      line[|line| - 1] != CR
    ensures LineEnd(t, p) == p + |line| && t[p..p + |line|] == line
  {
    var n, x := |line|, t[p..];
    var e := if post != [] && post[0] == CR then p + n + 1 else p + n;
    assert x[..n] == line && t[p..p + n] == x[..n];
    assert t[p + n - 1] == x[n - 1] == line[n - 1];
    assert NextBreak(t, p) == e by {
      LineBreakIs(t, p, line, post, e);
      BreakIs(t, p, e);
    }
    if e > p + n { assert t[p + n] == x[n] == post[0]; }
  }

  lemma {:induction false} LineBreakIs(t: Str, p: nat, line: Str, post: Str, e: nat)
    requires p <= |t| && t[p..] == line + post && NoBreak(line) && EndsLine(post)
    requires e == if post != [] && post[0] == CR then p + |line| + 1 else p + |line|
    ensures e <= |t| && (e < |t| ==> t[e] == LF) && forall k :: p <= k < e ==> t[k] != LF
  {
    var n, x := |line|, line + post;
    assert |x| == |t| - p;
    if post != [] { assert t[p + n] == t[p..][n] == x[n] == post[0]; }
    if |post| > 1 { assert t[p + n + 1] == t[p..][n + 1] == x[n + 1] == post[1]; }
    forall k | p <= k < e ensures t[k] != LF {
      if k < p + n { assert t[k] == t[p..][k - p] == x[k - p] == line[k - p]; }
    }
  }

  lemma {:induction false} BreakIs(s: Str, i: nat, e: nat)
    requires i <= e <= |s| && (e < |s| ==> s[e] == LF) && forall k :: i <= k < e ==> s[k] != LF
    ensures NextBreak(s, i) == e
  {
  }

  /** How many lines end before index ls. */
  function LinesBefore(text: Str, ls: nat): nat
    requires ls <= |text|
  {
    if ls == 0 then 0 else LinesBefore(text, ls - 1) + if text[ls - 1] == LF then 1 else 0
  }

  /** The number, from 1, of the line that holds index i. */
  function LineNumber(s: Str, i: nat): nat
    requires i <= |s|
  {
    1 + LinesBefore(s, i)
  }

  lemma {:induction false} NoBreakNoLine(text: Str, a: nat, b: nat)
    requires a <= b <= |text| && forall k :: a <= k < b ==> text[k] != LF
    ensures LinesBefore(text, b) == LinesBefore(text, a)
    decreases b
  {
    if a < b { NoBreakNoLine(text, a, b - 1); }
  }

  lemma {:induction false} LineStartIs(s: Str, i: nat, ls: nat)
    requires ls <= i <= |s| && (ls > 0 ==> s[ls - 1] == LF) && forall k :: ls <= k < i ==> s[k] != LF
    ensures LineStart(s, i) == ls
  {
  }

  /** A number moved into [0, n]. */
  function Clamp(v: int, n: nat): (x: nat)
    ensures x <= n
    ensures 0 <= v <= n ==> x == v
  {
    if v < 0 then 0 else if v > n then n else v
  }
}
