/** The prefix of a line that a task keeps: indent, quote marks and one list marker. */
module LinePrefix {
  import opened Text
  import opened Markers

  const STAR: CodeUnit := 0x2A
  const PLUS: CodeUnit := 0x2B
  const LEFT_BRACKET: CodeUnit := 0x5B
  const RIGHT_BRACKET: CodeUnit := 0x5D
  const LEFT_BRACE: CodeUnit := 0x7B

  predicate Digit(c: CodeUnit) { 0x30 <= c <= 0x39 }

  /** The full-width digits */
  predicate WideDigit(c: CodeUnit) { 0xFF10 <= c <= 0xFF19 }

  /** What ends the number of a list: ". ) ．）" */
  predicate NumberEnd(c: CodeUnit) { c == 0x2E || c == 0x29 || c == 0xFF0E || c == 0xFF09 }

  /** The bullets that need no blank behind them: "・•●○◦" */
  predicate Bullet(c: CodeUnit) { c == 0x30FB || c == 0x2022 || c == 0x25CF || c == 0x25CB || c == 0x25E6 }

  predicate Dash(c: CodeUnit) { c == DASH || c == STAR || c == PLUS }

  /** The inside of a check box */
  predicate Check(c: CodeUnit) { c == SPACE || c == 0x78 || c == 0x58 }

  /** A quote mark that is not doubled. */
  predicate QuoteAt(s: Str, i: nat) {
    i < |s| && s[i] == GREATER && !(i + 1 < |s| && s[i + 1] == GREATER)
  }

  /** The quote mark at w takes one blank with it. */
  function AfterQuote(s: Str, w: nat): (n: nat)
    requires w < |s|
    ensures w < n <= |s|
  {
    if w + 1 < |s| && IsBlank(s[w + 1]) then w + 2 else w + 1
  }

  /** Where the blanks and quote marks from i on end. */
  function QuoteEnd(s: Str, i: nat): (e: nat)
    requires i <= |s|
    ensures i <= e <= |s|
    decreases |s| - i
  {
    var w := RunEnd(s, i, IsBlank);
    if !QuoteAt(s, w) then w else QuoteEnd(s, AfterQuote(s, w))
  }

  /** How long the list marker at the front of u is. */
  function ListMarker(u: Str): (n: nat)
    ensures n <= |u|
  {
    if u == [] then 0
    else if Dash(u[0]) then
      var b := RunEnd(u, 1, IsBlank);
      if b == 1 then 0 else CheckBoxEnd(u, b)
    else if Digit(u[0]) then NumberMarker(u, RunEnd(u, 0, Digit))
    else if WideDigit(u[0]) then NumberMarker(u, RunEnd(u, 0, WideDigit))
    else if Bullet(u[0]) then RunEnd(u, 1, IsBlank)
    else 0
  }

  /** The end of a check box at b and its blanks, or b. */
  function CheckBoxEnd(u: Str, b: nat): (n: nat)
    requires b <= |u|
    ensures b <= n <= |u|
  {
    if b + 2 < |u| && u[b] == LEFT_BRACKET && Check(u[b + 1]) && u[b + 2] == RIGHT_BRACKET then
      var e := RunEnd(u, b + 3, IsBlank);
      if e > b + 3 then e else b
    else b
  }

  /** A number of d digits, its end and at least one blank. */
  function NumberMarker(u: Str, d: nat): (n: nat)
    requires d <= |u|
    ensures n <= |u|
  {
    if d <= 3 && d < |u| && NumberEnd(u[d]) then
      var e := RunEnd(u, d + 1, IsBlank);
      if e > d + 1 then e else 0
    else 0
  }

  /** The length of the prefix of a line. */
  function PrefixLength(s: Str): (n: nat)
    ensures n <= |s|
  {
    var q := QuoteEnd(s, 0);
    q + ListMarker(s[q..])
  }

  /** The loop over blanks and quote marks, then the list marker. */
  method SplitLinePrefix(s: Str) returns (prefix: Str, body: Str)
    ensures prefix == s[..PrefixLength(s)] && body == s[PrefixLength(s)..]
  {
    var i := 0;
    while true
      invariant i <= |s| && QuoteEnd(s, i) == QuoteEnd(s, 0)
      decreases |s| - i
    {
      i := RunEnd(s, i, IsBlank);
      if !QuoteAt(s, i) { break; }
      i := i + 1;
      if i < |s| && IsBlank(s[i]) { i := i + 1; }
    }
    i := i + ListMarker(s[i..]);
    prefix, body := s[..i], s[i..];
  }

  // ----- a prefix stays the prefix when a notation follows it ----------------------------------------------

  /** Two opening brackets or braces. */
  predicate StartsNotation(x: Str) {
    |x| >= 2 && x[0] == x[1] && (x[0] == LEFT_BRACKET || x[0] == LEFT_BRACE)
  }

  /** Two texts agree below n, and there the second holds a bracket. */
  predicate AgreeTo(s: Str, v: Str, n: nat) {
    n <= |s| && n < |v| && (v[n] == LEFT_BRACKET || v[n] == LEFT_BRACE) && forall k :: 0 <= k < n ==> v[k] == s[k]
  }

  lemma {:induction false} QuoteAgrees(s: Str, w: nat, n: nat, v: Str)
    requires AgreeTo(s, v, n) && QuoteAt(s, w) && AfterQuote(s, w) <= n
    ensures QuoteAt(v, w) && AfterQuote(v, w) == AfterQuote(s, w)
  {
  }

  lemma {:induction false} QuoteStable(s: Str, i: nat, n: nat, v: Str)
    requires i <= |s| && QuoteEnd(s, i) <= n && AgreeTo(s, v, n)
    requires QuoteEnd(s, i) == n || s[QuoteEnd(s, i)] != GREATER
    ensures QuoteEnd(v, i) == QuoteEnd(s, i)
    decreases |s| - i
  {
    var w := RunEnd(s, i, IsBlank);
    assert RunEnd(v, i, IsBlank) == w by { RunEndIs(v, i, w, IsBlank); }
    if QuoteAt(s, w) {
      QuoteAgrees(s, w, n, v);
      QuoteStable(s, AfterQuote(s, w), n, v);
    }
  }

  lemma {:induction false} MarkerStable(u: Str, x: Str, v: Str)
    requires v == u[..ListMarker(u)] + x && StartsNotation(x)
    ensures ListMarker(v) == ListMarker(u)
  {
    var m := ListMarker(u);
    if m > 0 {
      assert forall k :: 0 <= k < m ==> v[k] == u[k];
      assert v[m] == x[0] && v[m + 1] == x[1];
      if Dash(u[0]) {
        var b := RunEnd(u, 1, IsBlank);
        RunEndIs(v, 1, b, IsBlank);
        if m > b { RunEndIs(v, b + 3, m, IsBlank); }
      } else if Digit(u[0]) {
        NumberStable(u, x, v, Digit);
      } else if WideDigit(u[0]) {
        NumberStable(u, x, v, WideDigit);
      } else {
        RunEndIs(v, 1, m, IsBlank);
      }
    }
  }

  lemma {:induction false} NumberStable(u: Str, x: Str, v: Str, digit: CodeUnit -> bool)
    requires var m := NumberMarker(u, RunEnd(u, 0, digit)); m > 0 && v == u[..m] + x
    requires StartsNotation(x)
    ensures NumberMarker(v, RunEnd(v, 0, digit)) == NumberMarker(u, RunEnd(u, 0, digit))
  {
    var d := RunEnd(u, 0, digit);
    var m := NumberMarker(u, d);
    assert forall k :: 0 <= k < m ==> v[k] == u[k];
    assert v[m] == x[0];
    RunEndIs(v, 0, d, digit);
    RunEndIs(v, d + 1, m, IsBlank);
  }

  /** With a notation behind it the prefix of a line is what it was. */
  lemma {:induction false} PrefixStable(s: Str, x: Str, v: Str)
    requires v == s[..PrefixLength(s)] + x && StartsNotation(x)
    ensures PrefixLength(v) == PrefixLength(s)
  {
    var q, n := QuoteEnd(s, 0), PrefixLength(s);
    if q < |s| && s[q] == GREATER { assert n == q; }
    assert AgreeTo(s, v, n) && QuoteEnd(v, 0) == q by {
      assert v[n] == x[0];
      QuoteStable(s, 0, n, v);
    }
    assert v[q..] == s[q..][..n - q] + x;
    MarkerStable(s[q..], x, v[q..]);
  }

  /** What a prefix never holds: a backtick, a brace, a bracket before another bracket or at its end, a break. */
  predicate PlainAt(s: Str, k: nat, n: nat)
    requires k < n <= |s|
  {
    s[k] != 0x60 && s[k] != LEFT_BRACE && s[k] != LF && (s[k] == LEFT_BRACKET ==> k + 1 < n && s[k + 1] != LEFT_BRACKET)
  }

  lemma {:induction false} QuotesPlain(s: Str, i: nat, k: nat)
    requires i <= |s| && i <= k < QuoteEnd(s, i)
    ensures IsBlank(s[k]) || s[k] == GREATER
    decreases |s| - i
  {
    var w := RunEnd(s, i, IsBlank);
    if QuoteAt(s, w) && k >= w {
      if k >= AfterQuote(s, w) { QuotesPlain(s, AfterQuote(s, w), k); }
    }
  }

  lemma {:induction false} MarkerPlain(u: Str, k: nat)
    requires k < ListMarker(u)
    ensures PlainAt(u, k, ListMarker(u))
  {
  }

  lemma {:induction false} PrefixPlain(s: Str, k: nat)
    requires k < PrefixLength(s)
    ensures PlainAt(s, k, PrefixLength(s))
  {
    var q := QuoteEnd(s, 0);
    if k < q {
      QuotesPlain(s, 0, k);
    } else {
      MarkerPlain(s[q..], k - q);
    }
  }
}
