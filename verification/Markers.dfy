/** The pieces of HTML comments and of md-memo's own markers that the scanners look for. */
module Markers {
  import opened Text

  const BANG: CodeUnit := 0x21
  const DASH: CodeUnit := 0x2D
  const SLASH: CodeUnit := 0x2F
  const COLON: CodeUnit := 0x3A
  const LESS: CodeUnit := 0x3C
  const GREATER: CodeUnit := 0x3E

  /** "md-memo:" */
  const MD_MEMO: Str := [0x6D, 0x64, 0x2D, 0x6D, 0x65, 0x6D, 0x6F, 0x3A]

  /** "<!--" stands at i. */
  predicate OpensAt(s: Str, i: nat) {
    i + 4 <= |s| && s[i] == LESS && s[i + 1] == BANG && s[i + 2] == DASH && s[i + 3] == DASH
  }

  /** "-->" stands at i. */
  predicate ArrowAt(s: Str, i: nat) {
    i + 3 <= |s| && s[i] == DASH && s[i + 1] == DASH && s[i + 2] == GREATER
  }

  predicate HasArrow(s: Str) {
    exists i :: 0 <= i < |s| && ArrowAt(s, i)
  }

  predicate HasOpen(s: Str) {
    exists i :: 0 <= i < |s| && OpensAt(s, i)
  }

  /** The expression <!--\s*\/?md-memo: matches at the front of x. */
  predicate MarkerHere(x: Str) {
    OpensAt(x, 0) && At(x, NameIndex(x), MD_MEMO)
  }

  /** Where the name of a marker has to start: behind the "<!--", white space and one optional slash. */
  function NameIndex(x: Str): (k: nat)
    requires OpensAt(x, 0)
    ensures 4 <= k <= |x|
  {
    var k := RunEnd(x, 4, IsSpace);
    if k < |x| && x[k] == SLASH then k + 1 else k
  }

  predicate MarkerAt(s: Str, i: nat) {
    i <= |s| && MarkerHere(s[i..])
  }

  predicate HasMarker(s: Str) {
    exists i :: 0 <= i < |s| && MarkerAt(s, i)
  }

  /** A marker does not depend on what comes after its name. */
  lemma {:induction false} MarkerAgree(a: Str, b: Str, n: nat)
    requires MarkerHere(a) && n == NameIndex(a) + 8 && n <= |b| && a[..n] == b[..n]
    ensures MarkerHere(b)
  {
    var m := NameIndex(a);
    forall k | 0 <= k < n ensures b[k] == a[k] { assert a[..n][k] == a[k] && b[..n][k] == b[k]; }
    RunEndAgree(a, b, 4, n, IsSpace);
    SliceOfSlice(a, 0, n, m, n);
    SliceOfSlice(b, 0, n, m, n);
  }

  lemma {:induction false} PrefixMarker(x: Str, y: Str)
    requires MarkerHere(x) && |x| <= |y| && x == y[..|x|]
    ensures MarkerHere(y)
  {
    var n := NameIndex(x) + 8;
    SliceOfSlice(y, 0, |x|, 0, n);
    MarkerAgree(x, y, n);
  }

  lemma {:induction false} MarkerInSlice(s: Str, a: nat, b: nat)
    requires a <= b <= |s| && HasMarker(s[a..b])
    ensures HasMarker(s)
  {
    var i :| 0 <= i < b - a && MarkerAt(s[a..b], i);
    SliceTail(s, a, b, i);
    PrefixMarker(s[a..b][i..], s[a + i..]);
    assert MarkerAt(s, a + i);
  }

  /** The units of a marker: none of them is an ampersand. */
  lemma {:induction false} MarkerUnits(s: Str, u: nat)
    requires MarkerHere(s) && u < NameIndex(s) + 8
    ensures NameIndex(s) + 8 <= |s| && s[u] != 0x26
  {
    var m := NameIndex(s);
    if u >= m { assert s[m..m + 8][u - m] == MD_MEMO[u - m]; }
  }
}
