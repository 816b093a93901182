/**
  What spacing out leaves of the brackets of any text: of n equal brackets in a row, (n - 1) / 2 pairs rounded
  down. So it can be told from a text alone whether it can stand in a notation once it is spaced out.
 */
module BracketRuns {
  import opened Text
  import opened Notations

  /** The pairs a text has from index j on, in order: true for an opening one. */
  function Pairs(p: Brackets, s: Str, j: nat): seq<bool>
    requires j <= |s|
    decreases |s| - j
  {
    if j + 1 >= |s| then []
    else if PairAt(s, j, p.Open()) then [true] + Pairs(p, s, j + 2)
    else if PairAt(s, j, p.Close()) then [false] + Pairs(p, s, j + 2)
    else Pairs(p, s, j + 1)
  }

  predicate IsBracket(p: Brackets, c: CodeUnit) { c == p.Open() || c == p.Close() }

  /** The end of the run of one unit that starts at i. */
  function UnitsEnd(s: Str, i: nat): (e: nat)
    requires i < |s|
    ensures i < e <= |s|
  {
    var c := s[i];
    RunEnd(s, i, x => x == c)
  }

  /** The same pair n times, and the rest. */
  function Repeat(b: bool, n: nat, rest: seq<bool>): seq<bool> {
    if n == 0 then rest else [b] + Repeat(b, n - 1, rest)
  }

  /** The pairs that are left when a text is spaced out, told from its runs of brackets. */
  function LeftPairs(p: Brackets, s: Str, i: nat): seq<bool>
    requires i <= |s|
    decreases |s| - i
  {
    if i == |s| then []
    else if IsBracket(p, s[i]) then
      Repeat(s[i] == p.Open(), (UnitsEnd(s, i) - i - 1) / 2, LeftPairs(p, s, UnitsEnd(s, i)))
    else LeftPairs(p, s, i + 1)
  }

  /** From a depth on, no pair closes what is not open, and all that is open is closed. */
  predicate StepsBalanced(pairs: seq<bool>, depth: nat) {
    if pairs == [] then depth == 0
    else if pairs[0] then StepsBalanced(pairs[1..], depth + 1)
    else depth > 0 && StepsBalanced(pairs[1..], depth - 1)
  }

  function StepsDeepest(pairs: seq<bool>, depth: int): (d: int)
    ensures d >= depth
  {
    if pairs == [] then depth
    else if pairs[0] then StepsDeepest(pairs[1..], depth + 1)
    else
      var d := StepsDeepest(pairs[1..], depth - 1);
      if d < depth then depth else d
  }

  predicate StepsNest(pairs: seq<bool>) {
    StepsBalanced(pairs, 0) && StepsDeepest(pairs, 0) < MAX_NOTATION_DEPTH
  }

  /** Whether a text nests depends on its pairs alone. */
  lemma {:induction false} BalancedByPairs(p: Brackets, s: Str, j: nat, depth: nat)
    requires j <= |s|
    ensures Balanced(p, s, j, depth) == StepsBalanced(Pairs(p, s, j), depth)
    decreases |s| - j
  {
    if j + 1 < |s| {
      if PairAt(s, j, p.Open()) {
        BalancedByPairs(p, s, j + 2, depth + 1);
        assert Pairs(p, s, j)[1..] == Pairs(p, s, j + 2);
      } else if PairAt(s, j, p.Close()) {
        if depth > 0 { BalancedByPairs(p, s, j + 2, depth - 1); }
        assert Pairs(p, s, j)[1..] == Pairs(p, s, j + 2);
      } else {
        BalancedByPairs(p, s, j + 1, depth);
      }
    }
  }

  lemma {:induction false} DeepestByPairs(p: Brackets, s: Str, j: nat, depth: int)
    requires j <= |s|
    ensures Deepest(p, s, j, depth) == StepsDeepest(Pairs(p, s, j), depth)
    decreases |s| - j
  {
    if j + 1 < |s| {
      if PairAt(s, j, p.Open()) {
        DeepestByPairs(p, s, j + 2, depth + 1);
        assert Pairs(p, s, j)[1..] == Pairs(p, s, j + 2);
      } else if PairAt(s, j, p.Close()) {
        DeepestByPairs(p, s, j + 2, depth - 1);
        assert Pairs(p, s, j)[1..] == Pairs(p, s, j + 2);
      } else {
        DeepestByPairs(p, s, j + 1, depth);
      }
    }
  }

  lemma {:induction false} NestsByPairs(p: Brackets, s: Str)
    ensures Nests(p, s) <==> StepsNest(Pairs(p, s, 0))
  {
    BalancedByPairs(p, s, 0, 0);
    DeepestByPairs(p, s, 0, 0);
  }

  // ----- spacing out in one go -----------------------------------------------------------------------------

  /** Both kinds of pairs spaced out in one pass. */
  function Spaced(p: Brackets, s: Str, i: nat): (r: Str)
    requires i <= |s|
    ensures r == [] <==> i == |s|
    ensures i < |s| ==> r[0] == s[i]
    decreases |s| - i
  {
    if i == |s| then []
    else if PairAt(s, i, p.Open()) || PairAt(s, i, p.Close()) then [s[i], SPACE, s[i]] + Spaced(p, s, i + 2)
    else [s[i]] + Spaced(p, s, i + 1)
  }

  lemma {:induction false} SpaceOutShift(head: Str, x: Str, k: nat, c: CodeUnit)
    requires k <= |x|
    ensures SpaceOut(head + x, |head| + k, c) == SpaceOut(x, k, c)
    decreases |x| - k
  {
    if k < |x| {
      var s, i := head + x, |head| + k;
      assert s[i] == x[k] && (k + 1 < |x| ==> s[i + 1] == x[k + 1]);
      SpaceOutShift(head, x, if PairAt(x, k, c) then k + 2 else k + 1, c);
    }
  }

  /** A unit, or a spaced-out pair of another bracket, stays in front. */
  lemma {:induction false} HeadStays(head: Str, x: Str, c: CodeUnit)
    requires |head| == 1 || (|head| == 3 && head[0] != c && head[1] != c && head[2] != c)
    requires c != SPACE && (x != [] && x[0] == c ==> head[|head| - 1] != c)
    ensures SpaceOut(head + x, 0, c) == head + SpaceOut(x, 0, c)
  {
    var s := head + x;
    SpaceOutShift(head, x, 0, c);
    assert SpaceOut(s, |head|, c) == SpaceOut(x, 0, c);
    if |head| == 3 {
      assert SpaceOut(s, 2, c) == [head[2]] + SpaceOut(s, 3, c);
      assert SpaceOut(s, 1, c) == [head[1]] + SpaceOut(s, 2, c);
      assert head == [head[0]] + ([head[1]] + [head[2]]);
    } else {
      assert head == [head[0]];
    }
  }

  /** A pair in front is spaced out. */
  lemma {:induction false} PairSpaced(x: Str, c: CodeUnit)
    ensures SpaceOut([c] + ([c] + x), 0, c) == [c, SPACE, c] + SpaceOut(x, 0, c)
  {
    assert [c] + ([c] + x) == [c, c] + x;
    SpaceOutShift([c, c], x, 0, c);
  }

  lemma {:induction false} NeutralizeOnce(p: Brackets, s: Str, i: nat)
    requires i <= |s|
    ensures SpaceOut(SpaceOut(s, i, p.Open()), 0, p.Close()) == Spaced(p, s, i)
    decreases |s| - i
  {
    var o, c := p.Open(), p.Close();
    if i < |s| {
      if PairAt(s, i, o) {
        NeutralizeOnce(p, s, i + 2);
        HeadStays([o, SPACE, o], SpaceOut(s, i + 2, o), c);
      } else if PairAt(s, i, c) {
        NeutralizeOnce(p, s, i + 2);
        assert SpaceOut(s, i + 1, o) == [c] + SpaceOut(s, i + 2, o);
        PairSpaced(SpaceOut(s, i + 2, o), c);
      } else {
        NeutralizeOnce(p, s, i + 1);
        if i + 1 < |s| { SpaceOutHead(s, i + 1, o); }
        HeadStays([s[i]], SpaceOut(s, i + 1, o), c);
      }
    }
  }

  // ----- the pairs left ------------------------------------------------------------------------------------

  lemma {:induction false} PairsShift(p: Brackets, head: Str, x: Str, k: nat)
    requires k <= |x|
    ensures Pairs(p, head + x, |head| + k) == Pairs(p, x, k)
    decreases |x| - k
  {
    if k + 1 < |x| {
      var s, i := head + x, |head| + k;
      assert s[i] == x[k] && s[i + 1] == x[k + 1];
      PairsShift(p, head, x, if PairAt(x, k, p.Open()) || PairAt(x, k, p.Close()) then k + 2 else k + 1);
    }
  }

  /** A unit that makes no pair with the next one can be left out. */
  lemma {:induction false} PairsBehind(p: Brackets, c: CodeUnit, x: Str)
    requires !IsBracket(p, c) || x == [] || x[0] != c
    ensures Pairs(p, [c] + x, 0) == Pairs(p, x, 0)
  {
    var s := [c] + x;
    PairsShift(p, [c], x, 0);
    if x != [] { assert s[0] == c && s[1] == x[0]; }
  }

  /** Two brackets in front are a pair. */
  lemma {:induction false} PairInFront(p: Brackets, c: CodeUnit, x: Str)
    requires IsBracket(p, c)
    ensures Pairs(p, [c] + ([c] + x), 0) == [c == p.Open()] + Pairs(p, x, 0)
  {
    assert [c] + ([c] + x) == [c, c] + x;
    PairsShift(p, [c, c], x, 0);
  }

  /** The end of the run of c at i, when a run of c may go on there. */
  function RestEnd(s: Str, i: nat, c: CodeUnit): (e: nat)
    requires i <= |s|
    ensures i <= e <= |s|
  {
    if i < |s| && s[i] == c then UnitsEnd(s, i) else i
  }

  lemma {:induction false} RestEndNext(s: Str, i: nat, c: CodeUnit)
    requires i < |s| && s[i] == c
    ensures RestEnd(s, i, c) == RestEnd(s, i + 1, c)
  {
  }

  /** A loose bracket and a pair that was spaced out: a pair, and a loose bracket again. */
  lemma {:induction false} LooseThenPair(p: Brackets, c: CodeUnit, z: Str)
    requires IsBracket(p, c)
    ensures Pairs(p, [c] + ([c, SPACE, c] + z), 0) == [c == p.Open()] + Pairs(p, [c] + z, 0)
  {
    assert [c] + ([c, SPACE, c] + z) == [c] + ([c] + ([SPACE] + ([c] + z)));
    PairInFront(p, c, [SPACE] + ([c] + z));
    PairsBehind(p, SPACE, [c] + z);
  }

  /** A bracket left without its pair, and the rest of its run behind it. */
  lemma {:induction false} LooseBracket(p: Brackets, s: Str, i: nat, c: CodeUnit, e: nat)
    requires i <= |s| && IsBracket(p, c) && e == RestEnd(s, i, c)
    ensures Pairs(p, [c] + Spaced(p, s, i), 0) == Repeat(c == p.Open(), (e - i + 1) / 2, LeftPairs(p, s, e))
    decreases |s| - i, 1
  {
    if i == |s| || s[i] != c {
      PairsOfSpaced(p, s, i);
      PairsBehind(p, c, Spaced(p, s, i));
    } else {
      RestEndNext(s, i, c);
      if PairAt(s, i, c) {
        RestEndNext(s, i + 1, c);
        LooseThenPair(p, c, Spaced(p, s, i + 2));
        LooseBracket(p, s, i + 2, c, e);
        assert (e - i + 1) / 2 == (e - i - 1) / 2 + 1;
      } else {
        PairInFront(p, c, Spaced(p, s, i + 1));
        PairsOfSpaced(p, s, i + 1);
      }
    }
  }

  /** Of every run of n brackets (n - 1) / 2 pairs are left, rounded down. */
  lemma {:induction false} PairsOfSpaced(p: Brackets, s: Str, i: nat)
    requires i <= |s|
    ensures Pairs(p, Spaced(p, s, i), 0) == LeftPairs(p, s, i)
    decreases |s| - i, 0
  {
    if i < |s| {
      var c := s[i];
      if IsBracket(p, c) && PairAt(s, i, c) {
        var z := Spaced(p, s, i + 2);
        assert Spaced(p, s, i) == [c] + ([SPACE] + ([c] + z));
        PairsBehind(p, c, [SPACE] + ([c] + z));
        PairsBehind(p, SPACE, [c] + z);
        RestEndNext(s, i, c);
        RestEndNext(s, i + 1, c);
        LooseBracket(p, s, i + 2, c, RestEnd(s, i, c));
      } else {
        var z := Spaced(p, s, i + 1);
        assert Spaced(p, s, i) == [c] + z;
        PairsBehind(p, c, z);
        PairsOfSpaced(p, s, i + 1);
        if IsBracket(p, c) {
          RestEndNext(s, i, c);
          assert UnitsEnd(s, i) == i + 1;
        }
      }
    }
  }

  /** A text can stand in a notation once it is spaced out exactly when the pairs its runs leave nest. */
  lemma {:induction false} NeutralizeNests(p: Brackets, s: Str)
    ensures Nests(p, Neutralize(p, s)) <==> StepsNest(LeftPairs(p, s, 0))
  {
    NeutralizeOnce(p, s, 0);
    PairsOfSpaced(p, s, 0);
    NestsByPairs(p, Neutralize(p, s));
  }
}
