/** What the prefix of a line is: blanks and quote marks as far as they go, and then the longest list marker. */
module PrefixForms {
  import opened Text
  import opened LinePrefix

  /** [a, b) is one or more blanks: space, tab or the ideographic space. */
  ghost predicate Blanks(s: Str, a: nat, b: nat) {
    a < b <= |s| && forall k :: a <= k < b ==> s[k] == 0x20 || s[k] == 0x09 || s[k] == 0x3000
  }

  /** A blank, or a ">" with no ">" behind it. */
  ghost predicate Quoting(s: Str, k: nat) {
    k < |s| && (Blanks(s, k, k + 1) || (s[k] == 0x3E && (k + 1 == |s| || s[k + 1] != 0x3E)))
  }

  // ----- list markers, as forms of [0, n) ------------------------------------------------------------------

  ghost predicate Dashed(u: Str, b: nat) {
    Blanks(u, 1, b) && u[0] in {0x2D, 0x2A, 0x2B}
  }

  /** "- [ ] " or "- [x] " */
  ghost predicate Checked(u: Str, b: nat, n: nat) {
    Dashed(u, b) && Blanks(u, b + 3, n) && u[b] == 0x5B && u[b + 1] in {0x20, 0x78, 0x58} && u[b + 2] == 0x5D
  }

  /** One to three digits of one width, their end, and blanks. */
  ghost predicate Numbered(u: Str, d: nat, n: nat) {
    && 1 <= d <= 3 && Blanks(u, d + 1, n) && u[d] in {0x2E, 0x29, 0xFF0E, 0xFF09}
    && ((forall k :: 0 <= k < d ==> 0x30 <= u[k] <= 0x39) || (forall k :: 0 <= k < d ==> 0xFF10 <= u[k] <= 0xFF19))
  }

  ghost predicate Bulleted(u: Str, n: nat) {
    1 <= n <= |u| && u[0] in {0x30FB, 0x2022, 0x25CF, 0x25CB, 0x25E6} && (n == 1 || Blanks(u, 1, n))
  }

  ghost predicate MarkerTo(u: Str, n: nat) {
    Dashed(u, n) || (exists b: nat :: Checked(u, b, n)) || (exists d: nat :: Numbered(u, d, n)) || Bulleted(u, n)
  }

  // ----- the scanners --------------------------------------------------------------------------------------

  lemma {:induction false} RunBlanks(s: Str, a: nat, e: nat)
    requires a <= |s| && e == RunEnd(s, a, IsBlank)
    ensures e > a <==> a < |s| && IsBlank(s[a])
    ensures e > a ==> Blanks(s, a, e)
    ensures forall b: nat :: Blanks(s, a, b) ==> b <= e
  {
  }

  lemma {:induction false} QuotesAre(s: Str, i: nat)
    requires i <= |s|
    ensures var e := QuoteEnd(s, i); !Quoting(s, e) && forall k :: i <= k < e ==> Quoting(s, k)
    decreases |s| - i
  {
    var w := RunEnd(s, i, IsBlank);
    assert forall k :: i <= k < w ==> IsBlank(s[k]);
    if QuoteAt(s, w) { QuotesAre(s, AfterQuote(s, w)); }
  }

  /** The list marker is one. */
  lemma {:induction false} MarkerIs(u: Str)
    ensures ListMarker(u) > 0 ==> MarkerTo(u, ListMarker(u))
  {
    var n := ListMarker(u);
    if n > 0 {
      if Dash(u[0]) {
        DashIs(u);
      } else if Digit(u[0]) || WideDigit(u[0]) {
        NumberIs(u);
      } else {
        RunBlanks(u, 1, n);
        assert Bulleted(u, n);
      }
    }
  }

  lemma {:induction false} DashIs(u: Str)
    requires ListMarker(u) > 0 && Dash(u[0])
    ensures MarkerTo(u, ListMarker(u))
  {
    var b, n := RunEnd(u, 1, IsBlank), ListMarker(u);
    RunBlanks(u, 1, b);
    if n > b {
      RunBlanks(u, b + 3, n);
      assert Checked(u, b, n);
    }
  }

  lemma {:induction false} NumberIs(u: Str)
    requires ListMarker(u) > 0 && !Dash(u[0]) && (Digit(u[0]) || WideDigit(u[0]))
    ensures MarkerTo(u, ListMarker(u))
  {
    var d := if Digit(u[0]) then RunEnd(u, 0, Digit) else RunEnd(u, 0, WideDigit);
    RunBlanks(u, d + 1, ListMarker(u));
    assert Numbered(u, d, ListMarker(u));
  }

  /** And none is longer. */
  lemma {:induction false} LongestMarker(u: Str, n: nat)
    requires MarkerTo(u, n)
    ensures n <= ListMarker(u)
  {
    if Dashed(u, n) {
      RunBlanks(u, 1, RunEnd(u, 1, IsBlank));
    } else if exists b: nat :: Checked(u, b, n) {
      var b: nat :| Checked(u, b, n);
      RunEndIs(u, 1, b, IsBlank);
      RunBlanks(u, b + 3, RunEnd(u, b + 3, IsBlank));
    } else if exists d: nat :: Numbered(u, d, n) {
      var d: nat :| Numbered(u, d, n);
      LongestNumber(u, d, n);
    } else if n > 1 {
      RunBlanks(u, 1, RunEnd(u, 1, IsBlank));
    }
  }

  lemma {:induction false} LongestNumber(u: Str, d: nat, n: nat)
    requires Numbered(u, d, n)
    ensures n <= ListMarker(u)
  {
    if Digit(u[0]) { RunEndIs(u, 0, d, Digit); } else { RunEndIs(u, 0, d, WideDigit); }
    RunBlanks(u, d + 1, RunEnd(u, d + 1, IsBlank));
  }

  /** The prefix of a line: quotes and blanks to q, and the longest list marker behind them. */
  lemma {:induction false} PrefixIs(s: Str) returns (q: nat)
    ensures var n := PrefixLength(s);
      && q <= n <= |s| && !Quoting(s, q) && (forall k :: 0 <= k < q ==> Quoting(s, k))
      && (n > q ==> MarkerTo(s[q..], n - q)) && forall m: nat :: MarkerTo(s[q..], m) ==> m <= n - q
  {
    q := QuoteEnd(s, 0);
    QuotesAre(s, 0);
    MarkerIs(s[q..]);
    forall m: nat | MarkerTo(s[q..], m) ensures m <= ListMarker(s[q..]) { LongestMarker(s[q..], m); }
  }
}
