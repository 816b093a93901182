/**
  The bracket scanner of the task notations: where "[[ ... ]]" or "{{ ... }}" ends on its line, which texts
  can be put between the brackets, and what spacing out stray brackets achieves.
 */
module Notations {
  import opened Text

  /** The two kinds of brackets; a notation opens and closes with two of its kind. */
  datatype Brackets = Square | Curly {
    function Open(): CodeUnit { if Square? then 0x5B else 0x7B }
    function Close(): CodeUnit { if Square? then 0x5D else 0x7D }
    function Opening(): Str { [Open(), Open()] }
    function Closing(): Str { [Close(), Close()] }
  }

  /** No notation may nest deeper. */
  const MAX_NOTATION_DEPTH: nat := 16

  /** Two of a unit stand at j. */
  predicate PairAt(s: Str, j: nat, c: CodeUnit) {
    j + 1 < |s| && s[j] == c && s[j + 1] == c
  }

  ghost predicate HasPair(s: Str, c: CodeUnit) {
    exists j :: 0 <= j < |s| && PairAt(s, j, c)
  }

  /** Where the notation ends that has depth open pairs before index j. */
  function CloseOf(p: Brackets, line: Str, j: nat, depth: int): (end: Option<nat>)
    requires j <= |line|
    ensures end.Some? ==> j + 2 <= end.value <= |line|
    decreases |line| - j
  {
    if j + 1 >= |line| then None
    else if PairAt(line, j, p.Open()) then
      if depth + 1 > MAX_NOTATION_DEPTH then None else CloseOf(p, line, j + 2, depth + 1)
    else if PairAt(line, j, p.Close()) then
      if depth - 1 == 0 then Some(j + 2) else CloseOf(p, line, j + 2, depth - 1)
    else CloseOf(p, line, j + 1, depth)
  }

  /** From index j on every closing pair has its opening pair, and every opening pair its closing one. */
  predicate Balanced(p: Brackets, s: Str, j: nat, depth: nat)
    requires j <= |s|
    decreases |s| - j
  {
    if j + 1 >= |s| then depth == 0
    else if PairAt(s, j, p.Open()) then Balanced(p, s, j + 2, depth + 1)
    else if PairAt(s, j, p.Close()) then depth > 0 && Balanced(p, s, j + 2, depth - 1)
    else Balanced(p, s, j + 1, depth)
  }

  /** The greatest depth from index j on. */
  function Deepest(p: Brackets, s: Str, j: nat, depth: int): (d: int)
    requires j <= |s|
    ensures d >= depth
    decreases |s| - j
  {
    if j + 1 >= |s| then depth
    else if PairAt(s, j, p.Open()) then Deepest(p, s, j + 2, depth + 1)
    else if PairAt(s, j, p.Close()) then
      var d := Deepest(p, s, j + 2, depth - 1);
      if d < depth then depth else d
    else Deepest(p, s, j + 1, depth)
  }

  /** A text that can stand in a notation: balanced, and nested at most one level less deep than the notation. */
  predicate Nests(p: Brackets, s: Str) {
    Balanced(p, s, 0, 0) && Deepest(p, s, 0, 0) < MAX_NOTATION_DEPTH
  }

  /** The scan of a notation from its first bracket. */
  method ParseNotation(p: Brackets, line: Str) returns (end: Option<nat>)
    ensures end == CloseOf(p, line, 0, 0)
  {
    var depth, j := 0, 0;
    while j + 1 < |line|
      invariant j <= |line|
      invariant CloseOf(p, line, j, depth) == CloseOf(p, line, 0, 0)
      decreases |line| - j
    {
      if PairAt(line, j, p.Open()) {
        depth := depth + 1;
        if depth > MAX_NOTATION_DEPTH { return None; }
        j := j + 2;
      } else if PairAt(line, j, p.Close()) {
        depth, j := depth - 1, j + 2;
        if depth == 0 { return Some(j); }
      } else {
        j := j + 1;
      }
    }
    end := None;
  }

  method IsBalanced(p: Brackets, s: Str) returns (r: bool)
    ensures r == Balanced(p, s, 0, 0)
  {
    var depth: nat, j := 0, 0;
    while j + 1 < |s|
      invariant j <= |s|
      invariant Balanced(p, s, j, depth) == Balanced(p, s, 0, 0)
      decreases |s| - j
    {
      if PairAt(s, j, p.Open()) {
        depth, j := depth + 1, j + 2;
      } else if PairAt(s, j, p.Close()) {
        if depth == 0 { return false; }
        depth, j := depth - 1, j + 2;
      } else {
        j := j + 1;
      }
    }
    r := depth == 0;
  }

  // ----- a written notation ends where it was meant to end -------------------------------------------------

  /** The notation around a text, as it is written: a space before the closing brackets. */
  function Notation(p: Brackets, inner: Str): Str {
    p.Opening() + (inner + ([SPACE] + p.Closing()))
  }

  lemma {:induction false} NotationUnits(p: Brackets, inner: Str, k: nat)
    requires k <= |inner|
    ensures var line := Notation(p, inner); var n := |inner|;
      && |line| == n + 5 && line[n + 2] == SPACE && line[n + 3] == line[n + 4] == p.Close()
      && PairAt(line, 0, p.Open()) && (k < n ==> line[2 + k] == inner[k])
  {
  }

  /** The scan inside a written notation reaches the written end exactly when the text nests. */
  lemma {:induction false} ScanReachesEnd(p: Brackets, inner: Str, k: nat, depth: nat, line: Str)
    requires k <= |inner| && depth < MAX_NOTATION_DEPTH && line == Notation(p, inner)
    ensures |line| == |inner| + 5
    ensures CloseOf(p, line, 2 + k, depth + 1) == Some(|line|)
       <==> Balanced(p, inner, k, depth) && Deepest(p, inner, k, depth) < MAX_NOTATION_DEPTH
    decreases |inner| - k
  {
    NotationUnits(p, inner, k);
    if k == |inner| {
      assert CloseOf(p, line, 2 + k, depth + 1) == CloseOf(p, line, 3 + k, depth + 1);
    } else {
      NotationUnits(p, inner, k + 1);
      if PairAt(inner, k, p.Open()) {
        if depth + 1 < MAX_NOTATION_DEPTH { ScanReachesEnd(p, inner, k + 2, depth + 1, line); }
      } else if PairAt(inner, k, p.Close()) {
        if depth > 0 { ScanReachesEnd(p, inner, k + 2, depth - 1, line); }
      } else {
        ScanReachesEnd(p, inner, k + 1, depth, line);
      }
    }
  }

  lemma {:induction false} NotationEnds(p: Brackets, inner: Str, line: Str)
    requires line == Notation(p, inner)
    ensures CloseOf(p, line, 0, 0) == Some(|line|) <==> Nests(p, inner)
  {
    NotationUnits(p, inner, 0);
    ScanReachesEnd(p, inner, 0, 0, line);
  }

  // ----- parts without pairs -------------------------------------------------------------------------------

  /** A text in front that has no pairs and ends in a space changes nothing. */
  lemma {:induction false} QuietHead(p: Brackets, head: Str, rest: Str, k: nat, s: Str)
    requires s == head + rest && k <= |head| && !HasPair(head, p.Open()) && !HasPair(head, p.Close())
    requires head != [] && head[|head| - 1] == SPACE
    ensures Balanced(p, s, k, 0) == Balanced(p, s, |head|, 0) && Deepest(p, s, k, 0) == Deepest(p, s, |head|, 0)
    decreases |head| - k
  {
    if k < |head| {
      assert s[k] == head[k] && (k + 1 < |head| ==> s[k + 1] == head[k + 1]);
      assert !PairAt(head, k, p.Open()) && !PairAt(head, k, p.Close());
      assert !PairAt(s, k, p.Open()) && !PairAt(s, k, p.Close());
      QuietHead(p, head, rest, k + 1, s);
      if k + 1 >= |s| { assert |head| == |s|; }
    }
  }

  lemma {:induction false} BalancedShift(p: Brackets, head: Str, rest: Str, k: nat, depth: nat, s: Str)
    requires s == head + rest && k <= |rest|
    ensures Balanced(p, s, |head| + k, depth) == Balanced(p, rest, k, depth)
    ensures Deepest(p, s, |head| + k, depth) == Deepest(p, rest, k, depth)
    decreases |rest| - k
  {
    if k + 1 < |rest| {
      assert s[|head| + k] == rest[k] && s[|head| + k + 1] == rest[k + 1];
      if PairAt(rest, k, p.Open()) {
        BalancedShift(p, head, rest, k + 2, depth + 1, s);
      } else if PairAt(rest, k, p.Close()) {
        if depth > 0 {
          BalancedShift(p, head, rest, k + 2, depth - 1, s);
        } else {
          DeepestShift(p, head, rest, k + 2, -1, s);
        }
      } else {
        BalancedShift(p, head, rest, k + 1, depth, s);
      }
    }
  }

  lemma {:induction false} DeepestShift(p: Brackets, head: Str, rest: Str, k: nat, depth: int, s: Str)
    requires s == head + rest && k <= |rest|
    ensures Deepest(p, s, |head| + k, depth) == Deepest(p, rest, k, depth)
    decreases |rest| - k
  {
    if k + 1 < |rest| {
      assert s[|head| + k] == rest[k] && s[|head| + k + 1] == rest[k + 1];
      if PairAt(rest, k, p.Open()) {
        DeepestShift(p, head, rest, k + 2, depth + 1, s);
      } else if PairAt(rest, k, p.Close()) {
        DeepestShift(p, head, rest, k + 2, depth - 1, s);
      } else {
        DeepestShift(p, head, rest, k + 1, depth, s);
      }
    }
  }

  lemma {:induction false} NestsBehind(p: Brackets, head: Str, rest: Str)
    requires !HasPair(head, p.Open()) && !HasPair(head, p.Close()) && head != [] && head[|head| - 1] == SPACE
    ensures Nests(p, head + rest) <==> Nests(p, rest)
  {
    QuietHead(p, head, rest, 0, head + rest);
    BalancedShift(p, head, rest, 0, 0, head + rest);
  }

  lemma {:induction false} QuietNests(p: Brackets, s: Str, j: nat)
    requires j <= |s| && !HasPair(s, p.Open()) && !HasPair(s, p.Close())
    ensures Balanced(p, s, j, 0) && Deepest(p, s, j, 0) == 0
    decreases |s| - j
  {
    if j + 1 < |s| {
      assert !PairAt(s, j, p.Open()) && !PairAt(s, j, p.Close());
      QuietNests(p, s, j + 1);
    }
  }

  // ----- spacing out ---------------------------------------------------------------------------------------

  /** Every pair of c, read from the left, becomes "c c". */
  function SpaceOut(s: Str, i: nat, c: CodeUnit): Str
    requires i <= |s|
    decreases |s| - i
  {
    if i == |s| then []
    else if PairAt(s, i, c) then [c, SPACE, c] + SpaceOut(s, i + 2, c)
    else [s[i]] + SpaceOut(s, i + 1, c)
  }

  function Neutralize(p: Brackets, s: Str): Str {
    SpaceOut(SpaceOut(s, 0, p.Open()), 0, p.Close())
  }

  predicate TripleAt(s: Str, j: nat, c: CodeUnit) {
    j + 2 < |s| && s[j] == c && s[j + 1] == c && s[j + 2] == c
  }

  /** Three of a unit in a row, at index i or later. */
  ghost predicate TripleFrom(s: Str, i: nat, c: CodeUnit) {
    exists j :: i <= j < |s| && TripleAt(s, j, c)
  }

  ghost predicate PairFrom(s: Str, i: nat, c: CodeUnit) {
    exists j :: i <= j < |s| && PairAt(s, j, c)
  }

  lemma {:induction false} SpaceOutHead(s: Str, i: nat, c: CodeUnit)
    requires i < |s|
    ensures SpaceOut(s, i, c) != [] && SpaceOut(s, i, c)[0] == s[i]
  {
  }

  lemma {:induction false} SpaceOutLast(s: Str, i: nat, c: CodeUnit)
    requires i < |s|
    ensures SpaceOut(s, i, c) != [] && SpaceOut(s, i, c)[|SpaceOut(s, i, c)| - 1] == s[|s| - 1]
    decreases |s| - i
  {
    var next := if PairAt(s, i, c) then i + 2 else i + 1;
    if next < |s| { SpaceOutLast(s, next, c); }
  }

  lemma {:induction false} PairOfCons(head: Str, rest: Str, c: CodeUnit)
    requires head != []
    ensures HasPair(head + rest, c) <==>
      HasPair(head, c) || (rest != [] && head[|head| - 1] == c == rest[0]) || HasPair(rest, c)
  {
    var s, n := head + rest, |head|;
    forall j | 0 <= j < |head| && PairAt(head, j, c) ensures HasPair(s, c) { assert PairAt(s, j, c); }
    forall j | 0 <= j < |rest| && PairAt(rest, j, c) ensures HasPair(s, c) { assert PairAt(s, n + j, c); }
    if rest != [] && head[n - 1] == c == rest[0] { assert PairAt(s, n - 1, c); }
    forall j | 0 <= j < |s| && PairAt(s, j, c)
      ensures HasPair(head, c) || (rest != [] && head[n - 1] == c == rest[0]) || HasPair(rest, c)
    {
      if j + 1 < n { assert PairAt(head, j, c); } else if j >= n { assert PairAt(rest, j - n, c); }
    }
  }

  /** Spacing out leaves a pair exactly where three stood in a row. */
  lemma {:induction false} PairLeft(s: Str, i: nat, c: CodeUnit)
    requires i <= |s| && c != SPACE
    ensures HasPair(SpaceOut(s, i, c), c) <==> TripleFrom(s, i, c)
    decreases |s| - i
  {
    if i < |s| {
      var next := if PairAt(s, i, c) then i + 2 else i + 1;
      var head, rest := if PairAt(s, i, c) then [c, SPACE, c] else [s[i]], SpaceOut(s, next, c);
      PairLeft(s, next, c);
      PairOfCons(head, rest, c);
      assert !HasPair(head, c);
      if next < |s| { SpaceOutHead(s, next, c); }
      TripleStep(s, i, next, c);
    }
  }

  lemma {:induction false} TripleStep(s: Str, i: nat, next: nat, c: CodeUnit)
    requires i < |s| && next == if PairAt(s, i, c) then i + 2 else i + 1
    ensures TripleFrom(s, i, c) <==> TripleFrom(s, next, c) || (PairAt(s, i, c) && next < |s| && s[next] == c)
  {
    if PairAt(s, i, c) && next < |s| && s[next] == c { assert TripleAt(s, i, c); }
    if TripleFrom(s, i, c) {
      var j :| i <= j < |s| && TripleAt(s, j, c);
      assert j >= next || (PairAt(s, i, c) && next < |s| && s[next] == c);
    }
  }

  /** Spacing out one unit makes no pairs and no triples of another. */
  lemma {:induction false} OtherPairs(s: Str, i: nat, c: CodeUnit, d: CodeUnit)
    requires i <= |s| && c != d && d != SPACE
    ensures HasPair(SpaceOut(s, i, c), d) <==> PairFrom(s, i, d)
    decreases |s| - i
  {
    if i < |s| {
      var next := if PairAt(s, i, c) then i + 2 else i + 1;
      var head, rest := if PairAt(s, i, c) then [c, SPACE, c] else [s[i]], SpaceOut(s, next, c);
      OtherPairs(s, next, c, d);
      PairOfCons(head, rest, d);
      assert !HasPair(head, d);
      if next < |s| { SpaceOutHead(s, next, c); }
      if PairFrom(s, i, d) {
        var j :| i <= j < |s| && PairAt(s, j, d);
        assert j >= next || (j == i && next < |s| && s[i] == d == s[next]);
      }
      if next < |s| && s[next] == d == s[i] && next == i + 1 { assert PairAt(s, i, d); }
    }
  }

  lemma {:induction false} OtherTriples(s: Str, i: nat, c: CodeUnit, d: CodeUnit, out: Str)
    requires i <= |s| && c != d && d != SPACE && out == SpaceOut(s, i, c)
    ensures TripleFrom(out, 0, d) <==> TripleFrom(s, i, d)
    ensures PairAt(out, 0, d) <==> PairAt(s, i, d)
    decreases |s| - i
  {
    if i < |s| {
      var next := if PairAt(s, i, c) then i + 2 else i + 1;
      var n, rest := if PairAt(s, i, c) then 3 else 1, SpaceOut(s, next, c);
      OtherTriples(s, next, c, d, rest);
      if next < |s| { SpaceOutHead(s, next, c); }
      if TripleFrom(out, 0, d) {
        var j :| 0 <= j < |out| && TripleAt(out, j, d);
        if j >= n {
          assert TripleAt(rest, j - n, d);
        } else {
          assert n == 1 && j == 0 && PairAt(rest, 0, d);
          assert TripleAt(s, i, d);
        }
      }
      if TripleFrom(s, i, d) {
        var j :| i <= j < |s| && TripleAt(s, j, d);
        if j >= next {
          assert TripleFrom(s, next, d);
          var k :| 0 <= k < |rest| && TripleAt(rest, k, d);
          assert TripleAt(out, n + k, d);
        } else {
          assert TripleAt(out, 0, d);
        }
      }
    }
  }

  /** Spacing out leaves no pair exactly when no bracket stood three times in a row. */
  lemma {:induction false} NeutralizeLeaves(p: Brackets, s: Str)
    ensures HasPair(Neutralize(p, s), p.Open()) || HasPair(Neutralize(p, s), p.Close())
       <==> TripleFrom(s, 0, p.Open()) || TripleFrom(s, 0, p.Close())
  {
    var once := SpaceOut(s, 0, p.Open());
    PairLeft(s, 0, p.Open());
    OtherTriples(s, 0, p.Open(), p.Close(), once);
    PairLeft(once, 0, p.Close());
    OtherPairs(once, 0, p.Close(), p.Open());
    assert PairFrom(once, 0, p.Open()) <==> HasPair(once, p.Open());
  }

  /** Free text without three brackets in a row always nests once it is spaced out. */
  lemma {:induction false} NeutralizedNests(p: Brackets, s: Str)
    requires !TripleFrom(s, 0, p.Open()) && !TripleFrom(s, 0, p.Close())
    ensures Nests(p, Neutralize(p, s))
  {
    NeutralizeLeaves(p, s);
    QuietNests(p, Neutralize(p, s), 0);
  }

  /** Three in a row keep a pair: spacing out is not enough for every text. */
  lemma {:induction false} NeutralizeCanFail(text: Str)
    requires text == [0x5B, 0x5B, 0x5B]
    ensures Neutralize(Square, text) == [0x5B, SPACE, 0x5B, 0x5B]
    ensures !Balanced(Square, text, 0, 0) && !Nests(Square, Neutralize(Square, text))
  {
    var once: Str := [0x5B, SPACE, 0x5B, 0x5B];
    assert SpaceOut(text, 2, 0x5B) == [0x5B] + SpaceOut(text, 3, 0x5B);
    assert SpaceOut(text, 0, 0x5B) == once;
    assert SpaceOut(once, 3, 0x5D) == [0x5B];
    assert SpaceOut(once, 2, 0x5D) == [0x5B, 0x5B];
    assert SpaceOut(once, 1, 0x5D) == [SPACE, 0x5B, 0x5B];
    assert SpaceOut(once, 0, 0x5D) == once;
    assert !Balanced(Square, once, 2, 0);
    assert !Balanced(Square, once, 1, 0);
  }
}
