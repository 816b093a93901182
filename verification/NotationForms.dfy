/** Where any notation ends: at the first place where its pairs of brackets come out even, whatever follows. */
module NotationForms {
  import opened Text
  import opened Notations

  /** What follows the end of a notation does not matter. */
  lemma {:induction false} TailIgnored(p: Brackets, line: Str, tail: Str, j: nat, depth: int, e: nat, other: Str)
    requires j <= |line| && CloseOf(p, line, j, depth) == Some(e) && other == line[..e] + tail
    ensures e <= |line| && j <= |other| && CloseOf(p, other, j, depth) == Some(e)
    decreases |line| - j
  {
    assert forall k :: 0 <= k < e ==> other[k] == line[k];
    if PairAt(line, j, p.Open()) {
      TailIgnored(p, line, tail, j + 2, depth + 1, e, other);
    } else if PairAt(line, j, p.Close()) {
      if depth - 1 != 0 { TailIgnored(p, line, tail, j + 2, depth - 1, e, other); }
    } else {
      TailIgnored(p, line, tail, j + 1, depth, e, other);
    }
  }

  /** A notation ends at e exactly when, cut off there, it ends with its line. */
  lemma {:induction false} EndsWhereCut(p: Brackets, line: Str, e: nat)
    requires e <= |line|
    ensures CloseOf(p, line, 0, 0) == Some(e) <==> CloseOf(p, line[..e], 0, 0) == Some(e)
  {
    if CloseOf(p, line, 0, 0) == Some(e) {
      assert line[..e] + [] == line[..e];
      TailIgnored(p, line, [], 0, 0, e, line[..e]);
    }
    if CloseOf(p, line[..e], 0, 0) == Some(e) {
      assert line[..e][..e] + line[e..] == line;
      TailIgnored(p, line[..e], line[e..], 0, 0, e, line);
    }
  }

  /** Two brackets, a text and two brackets. */
  function Bare(p: Brackets, inner: Str): Str { p.Opening() + (inner + p.Closing()) }

  lemma {:induction false} BareUnits(p: Brackets, inner: Str, k: nat)
    requires k <= |inner|
    ensures var line, n := Bare(p, inner), |inner|;
      && |line| == n + 4 && line[n + 2] == line[n + 3] == p.Close() && PairAt(line, 0, p.Open())
      && (k < n ==> line[2 + k] == inner[k])
  {
  }

  lemma {:induction false} ScanReachesClose(p: Brackets, inner: Str, k: nat, depth: nat, line: Str)
    requires k <= |inner| && depth < MAX_NOTATION_DEPTH && line == Bare(p, inner)
    requires inner != [] ==> inner[|inner| - 1] != p.Close()
    ensures |line| == |inner| + 4
    ensures CloseOf(p, line, 2 + k, depth + 1) == Some(|line|)
       <==> Balanced(p, inner, k, depth) && Deepest(p, inner, k, depth) < MAX_NOTATION_DEPTH
    decreases |inner| - k
  {
    BareUnits(p, inner, k);
    if k < |inner| {
      BareUnits(p, inner, k + 1);
      if PairAt(inner, k, p.Open()) {
        if depth + 1 < MAX_NOTATION_DEPTH { ScanReachesClose(p, inner, k + 2, depth + 1, line); }
      } else if PairAt(inner, k, p.Close()) {
        if depth > 0 { ScanReachesClose(p, inner, k + 2, depth - 1, line); }
      } else {
        ScanReachesClose(p, inner, k + 1, depth, line);
      }
    }
  }

  /**
    With any text between that does not end in a closing bracket, the notation ends there exactly when that is
    balanced and nests at most fifteen deep.
   */
  lemma {:induction false} BareNotationEnds(p: Brackets, inner: Str, tail: Str, line: Str)
    requires line == Bare(p, inner) + tail && (inner != [] ==> inner[|inner| - 1] != p.Close())
    ensures CloseOf(p, line, 0, 0) == Some(|inner| + 4) <==> Balanced(p, inner, 0, 0) && Deepest(p, inner, 0, 0) <= 15
  {
    var bare := Bare(p, inner);
    BareUnits(p, inner, 0);
    ScanReachesClose(p, inner, 0, 0, bare);
    assert line[..|inner| + 4] == bare;
    EndsWhereCut(p, line, |inner| + 4);
  }

  // ----- spacing out ---------------------------------------------------------------------------------------

  /** The first pair of c in s is behind a. */
  ghost predicate FirstPair(s: Str, a: Str, rest: Str, c: CodeUnit) {
    s == a + ([c, c] + rest) && forall j :: 0 <= j < |a| ==> !(s[j] == c && s[j + 1] == c)
  }

  /** A space comes between the first two that stand together, and the rest is spaced out behind them. */
  lemma {:induction false} FirstSpaced(s: Str, a: Str, rest: Str, c: CodeUnit)
    requires FirstPair(s, a, rest, c)
    ensures SpaceOut(s, 0, c) == a + ([c, 0x20, c] + SpaceOut(rest, 0, c))
  {
    SpacedFrom(s, 0, |a|, c);
    assert s[0..|a|] == a && s[|a|] == c && s[|a| + 1] == c;
    SpacedBehind(s, |a| + 2, rest, 0, c);
  }

  /** Up to e nothing changes. */
  lemma {:induction false} SpacedFrom(s: Str, i: nat, e: nat, c: CodeUnit)
    requires i <= e <= |s| && forall j :: i <= j < e ==> !PairAt(s, j, c)
    ensures SpaceOut(s, i, c) == s[i..e] + SpaceOut(s, e, c)
    decreases e - i
  {
    if i < e {
      SpacedFrom(s, i + 1, e, c);
      OneUnit(s, i, e, SpaceOut(s, e, c), SpaceOut(s, i + 1, c));
    } else {
      assert s[i..e] == [];
    }
  }

  lemma {:induction false} OneUnit(s: Str, i: nat, e: nat, x: Str, y: Str)
    requires i < e <= |s| && y == s[i + 1..e] + x
    ensures [s[i]] + y == s[i..e] + x
  {
    assert s[i..e] == [s[i]] + s[i + 1..e];
    Associate([s[i]], s[i + 1..e], x);
  }

  lemma {:induction false} SpacedBehind(s: Str, n: nat, rest: Str, i: nat, c: CodeUnit)
    requires n <= |s| && s[n..] == rest && i <= |rest|
    ensures SpaceOut(s, n + i, c) == SpaceOut(rest, i, c)
    decreases |rest| - i
  {
    if i < |rest| {
      assert s[n + i] == rest[i] && (i + 1 < |rest| ==> s[n + i + 1] == rest[i + 1]);
      SpacedBehind(s, n, rest, if PairAt(rest, i, c) then i + 2 else i + 1, c);
    }
  }

  /** Without two of them together nothing changes. */
  lemma {:induction false} NothingSpaced(s: Str, c: CodeUnit)
    requires forall j :: 0 <= j < |s| - 1 ==> !(s[j] == c && s[j + 1] == c)
    ensures SpaceOut(s, 0, c) == s
  {
    SpacedFrom(s, 0, |s|, c);
    assert s[0..|s|] == s;
  }
}
