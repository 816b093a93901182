/** What the lines of a code fence look like, said as texts put together (section 4.5 of the CommonMark Spec). */
module FenceForms {
  import opened Text
  import opened Fences

  function Rep(c: CodeUnit, n: nat): (r: Str)
    ensures |r| == n && forall k :: 0 <= k < n ==> r[k] == c
  {
    if n == 0 then [] else [c] + Rep(c, n - 1)
  }

  ghost predicate NoTerminator(s: Str) {
    forall k :: 0 <= k < |s| ==> s[k] != 0x0A && s[k] != 0x0D && s[k] != 0x2028 && s[k] != 0x2029
  }

  /** At most three spaces, at least three backticks or tildes, and the rest of the line. */
  ghost predicate FenceText(line: Str, n: nat, ch: CodeUnit, len: nat, rest: Str) {
    && n <= 3 && len >= 3 && (ch == 0x60 || ch == 0x7E) && line == Rep(0x20, n) + (Rep(ch, len) + rest)
    && (rest != [] ==> rest[0] != ch) && NoTerminator(rest) && (ch == 0x60 ==> 0x60 !in rest)
  }

  lemma {:induction false} FenceUnits(line: Str, n: nat, ch: CodeUnit, len: nat, rest: Str)
    requires line == Rep(0x20, n) + (Rep(ch, len) + rest)
    ensures |line| == n + len + |rest| && line[n + len..] == rest
    ensures (forall k :: 0 <= k < n ==> line[k] == 0x20) && forall k :: n <= k < n + len ==> line[k] == ch
    ensures rest != [] ==> line[n + len] == rest[0]
  {
    forall k | n <= k < n + len ensures line[k] == ch { assert line[k] == Rep(ch, len)[k - n]; }
  }

  /** A line of that form is that fence. */
  lemma {:induction false} TextIsFence(line: Str, n: nat, ch: CodeUnit, len: nat, rest: Str)
    requires FenceText(line, n, ch, len, rest)
    ensures FenceLine(line) == Some(Fence(ch, len, rest))
  {
    FenceUnits(line, n, ch, len, rest);
    RunEndIs(line, 0, n, c => c == SPACE);
    RunEndIs(line, n, n + len, c => c == ch);
    assert forall k :: 0 <= k < |rest| ==> !IsTerminator(rest[k]);
  }

  /** And every fence is a line of that form. */
  lemma {:induction false} FenceHasText(line: Str) returns (n: nat)
    requires FenceLine(line).Some?
    ensures var f := FenceLine(line).value; FenceText(line, n, f.ch, f.len, f.rest)
  {
    n := RunEnd(line, 0, c => c == SPACE);
    var ch := line[n];
    var e := RunEnd(line, n, c => c == ch);
    assert line == Rep(0x20, n) + (Rep(ch, e - n) + line[e..]) by { FenceCuts(line, n, e, ch); }
  }

  lemma {:induction false} FenceCuts(line: Str, n: nat, e: nat, ch: CodeUnit)
    requires n <= e <= |line|
    requires (forall k :: 0 <= k < n ==> line[k] == 0x20) && forall k :: n <= k < e ==> line[k] == ch
    ensures line == Rep(0x20, n) + (Rep(ch, e - n) + line[e..])
  {
    assert line[..n] == Rep(0x20, n) && line[n..e] == Rep(ch, e - n);
    assert line[n..] == line[n..e] + line[e..];
    assert line == line[..n] + line[n..];
  }

  /** A line closes a fence exactly when it holds nothing but at least as many of its character. */
  lemma {:induction false} ClosingText(open: Fence, line: Str)
    requires open.len >= 3 && (open.ch == 0x60 || open.ch == 0x7E)
    ensures Closes(open, FenceLine(line)) <==> exists n: nat, len: nat, white: Str :: Closing(open, line, n, len, white)
  {
    if Closes(open, FenceLine(line)) {
      var n := FenceHasText(line);
      var f := FenceLine(line).value;
      assert Closing(open, line, n, f.len, f.rest);
    }
    forall n: nat, len: nat, white: Str | Closing(open, line, n, len, white) ensures Closes(open, FenceLine(line)) {
      assert white != [] ==> IsSpace(white[0]);
      forall k | 0 <= k < |white| ensures white[k] != 0x60 { assert IsSpace(white[k]); }
      TextIsFence(line, n, open.ch, len, white);
    }
  }

  ghost predicate Closing(open: Fence, line: Str, n: nat, len: nat, white: Str) {
    && n <= 3 && len >= open.len && AllSpace(white) && NoTerminator(white)
    && line == Rep(0x20, n) + (Rep(open.ch, len) + white)
  }
}
