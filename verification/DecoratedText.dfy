/**
  What a decorated line says of the text it was made from: the instruction is that text, trimmed, without the marker
  it may already have; lines are joined by spaces; and nothing but white space and that marker is lost.
 */
module DecoratedText {
  import opened Text
  import opened LinePrefix
  import opened Notations
  import opened DiskSync
  import opened Tasks
  import opened TaskWriting
  import opened TaskForms
  import opened Fences
  import LineCalculus

  /** One line of text. */
  ghost predicate Single(text: Str) {
    forall k :: 0 <= k < |text| ==> text[k] != LF && text[k] != CR
  }

  /** What becomes of an instruction. */
  function Outcome(kind: Kind, prefix: Str, body: Str, o: Options): Option<Written> {
    if body == [] then None
    else if Balanced(kind.Brackets(), body, 0, 0) then Some(Written(prefix, body))
    else if o.sanitize then Some(Written(prefix, Neutralize(kind.Brackets(), body)))
    else None
  }

  /** The text says `body` behind its own marker, if it has one. */
  ghost predicate Instructs(kind: Kind, y: Str, o: Options, body: Str) {
    if exists rest :: OwnForm(kind, y, o, rest) then exists rest :: OwnForm(kind, y, o, rest) && body == Trim(rest)
    else body == y
  }

  lemma {:induction false} TrimTwice(s: Str)
    ensures Trim(Trim(s)) == Trim(s)
  {
    var x := Trim(s);
    TrimCore([], x, []);
    assert [] + x + [] == x;
  }

  /** The instruction of a trimmed text. */
  lemma {:induction false} InstructionIs(kind: Kind, y: Str, o: Options, body: Str)
    requires Trim(y) == y && Instructs(kind, y, o, body)
    ensures Trim(y[OwnMarker(kind, y, o)..]) == body
  {
    MarkerIs(kind, y, o);
    if OwnMarker(kind, y, o) == 0 { assert y[0..] == y; }
    if exists rest :: OwnForm(kind, y, o, rest) {
      var rest :| OwnForm(kind, y, o, rest) && body == Trim(rest);
    }
  }

  // ----- one line ------------------------------------------------------------------------------------------

  lemma {:induction false} SingleStays(text: Str)
    requires Single(text)
    ensures Lf(text) == text && StripBreaks(text) == text && NextBreak(text, 0) == |text| && LF !in text
  {
    LfIdentity(text);
    BreakIs(text, 0, |text|);
    if text != [] {
      RunEndIs(text, 0, 0, IsLf);
      RunStartIs(text, |text|, |text|, IsLf);
      assert text[0..|text|] == text;
    }
  }

  lemma {:induction false} JoinsNothing(s: Str, i: nat)
    requires i <= |s| && forall k :: i <= k < |s| ==> s[k] != LF
    ensures JoinLines(s, i) == s[i..]
    decreases |s| - i
  {
    if i < |s| {
      JoinsNothing(s, i + 1);
      assert s[i..] == [s[i]] + s[i + 1..];
    }
  }

  /**
    A line of text keeps its prefix; its instruction is the rest, trimmed, without the marker of the same kind it
    may start with.
   */
  lemma {:induction false} DecoratedSingle(kind: Kind, text: Str, o: Options, y: Str, body: Str)
    requires Single(text) && y == Trim(text[PrefixLength(text)..]) && Instructs(kind, y, o, body)
    ensures Decorate(kind, text, o) == Outcome(kind, text[..PrefixLength(text)], body, o)
  {
    var n := PrefixLength(text);
    SingleStays(text);
    assert text[..|text|] == text;
    assert (if o.sanitize then JoinLines(y, 0) else y) == y by { SingleJoined(text, n, y); }
    assert Trim(y[OwnMarker(kind, y, o)..]) == body by {
      TrimTwice(text[n..]);
      InstructionIs(kind, y, o, body);
    }
    DecorateParts(kind, text, o, text, text, n, y, y, body);
  }

  lemma {:induction false} SingleJoined(text: Str, n: nat, y: Str)
    requires Single(text) && n <= |text| && y == Trim(text[n..])
    ensures JoinLines(y, 0) == y
  {
    assert NoBreak(text[n..]);
    JoinsNothing(y, 0);
    assert y[0..] == y;
  }

  // ----- several lines -------------------------------------------------------------------------------------

  /** Texts with a space between them. */
  function Spaced(parts: seq<Str>): Str
    requires parts != []
  {
    if |parts| == 1 then parts[0] else parts[0] + ([SPACE] + Spaced(parts[1..]))
  }

  /** Lines with nothing to trim. */
  ghost predicate Trimmed(lines: seq<Str>) {
    lines != [] && forall k :: 0 <= k < |lines| ==> Plain(lines[k])
  }

  /** A break, with the blanks before it and all the white space behind it, becomes one space. */
  lemma {:induction false} BreakBecomesSpace(s: Str, i: nat, n: nat, e: nat, f: nat)
    requires i <= n <= e < f <= |s| && s[e] == LF && (i < n ==> !IsBlank(s[n - 1]))
    requires (forall k :: i <= k < n ==> s[k] != LF) && (forall k :: n <= k < e ==> IsBlank(s[k]))
    requires (forall k :: e < k < f ==> IsSpace(s[k])) && (f < |s| ==> !IsSpace(s[f]))
    ensures JoinLines(s, i) == s[i..n] + ([SPACE] + JoinLines(s, f))
    decreases n - i
  {
    var w := RunEnd(s, i, IsBlank);
    if i < n {
      assert !IsBlank(s[n - 1]);
      assert w <= n - 1;
      BreakBecomesSpace(s, i + 1, n, e, f);
      JoinAtUnit(s, i, w, JoinLines(s, i + 1));
      UnitBefore(s, i, n, [SPACE] + JoinLines(s, f));
    } else {
      RunEndIs(s, i, e, IsBlank);
      RunEndIs(s, e + 1, f, IsSpace);
      JoinAtBreak(s, i, e, f, JoinLines(s, f));
      assert s[i..n] == [];
    }
  }

  lemma {:induction false} UnitBefore(s: Str, i: nat, n: nat, rest: Str)
    requires i < n <= |s|
    ensures [s[i]] + (s[i + 1..n] + rest) == s[i..n] + rest
  {
  }

  lemma {:induction false} JoinAtBreak(s: Str, j: nat, w: nat, e: nat, rest: Str)
    requires j < |s| && w == RunEnd(s, j, IsBlank) < |s| && s[w] == LF && e == RunEnd(s, w + 1, IsSpace)
    requires rest == JoinLines(s, e)
    ensures JoinLines(s, j) == [SPACE] + rest
  {
  }

  lemma {:induction false} JoinAtUnit(s: Str, j: nat, w: nat, rest: Str)
    requires j < |s| && w == RunEnd(s, j, IsBlank) && (w < |s| ==> s[w] != LF) && rest == JoinLines(s, j + 1)
    ensures JoinLines(s, j) == [s[j]] + rest
  {
  }

  /** A line [i, e) with nothing to trim, and behind its break one that starts with no white space. */
  ghost predicate LineAt(s: Str, i: nat, e: nat) {
    && i < e && e + 1 < |s| && s[e] == LF && !IsBlank(s[e - 1]) && !IsSpace(s[e + 1])
    && forall k :: i <= k < e ==> s[k] != LF
  }

  /** What joining makes of the text from each index on. */
  ghost predicate Joins(s: Str, join: nat -> Str) {
    forall k: nat :: k <= |s| ==> join(k) == JoinLines(s, k)
  }

  /** Trimmed lines are joined by single spaces. */
  lemma {:induction false} LinesJoined(s: Str, join: nat -> Str, i: nat, lines: seq<Str>)
    requires Joins(s, join) && Trimmed(lines) && i <= |s| && s[i..] == LineCalculus.JoinLines(lines)
    ensures join(i) == Spaced(lines)
    decreases |lines|
  {
    if |lines| == 1 {
      OneLineJoined(s, i, lines[0]);
    } else {
      var e, rest := i + |lines[0]|, lines[1..];
      LineThenLines(s, i, lines, rest, e);
      LinesJoined(s, join, e + 1, rest);
      LineThenJoined(s, join, i, lines, rest, e);
    }
  }

  lemma {:induction false} LineThenJoined(s: Str, join: nat -> Str, i: nat, lines: seq<Str>, rest: seq<Str>, e: nat)
    requires Joins(s, join) && LineAt(s, i, e) && |lines| > 1 && s[i..e] == lines[0] && rest == lines[1..]
    requires rest != [] && join(e + 1) == Spaced(rest)
    ensures join(i) == Spaced(lines)
  {
    LineJoined(s, i, e, Spaced(rest));
  }

  lemma {:induction false} OneLineJoined(s: Str, i: nat, line: Str)
    requires i <= |s| && s[i..] == line && NoBreak(line)
    ensures JoinLines(s, i) == line
  {
    assert forall k :: i <= k < |s| ==> s[k] == s[i..][k - i];
    JoinsNothing(s, i);
  }

  lemma {:induction false} LineJoined(s: Str, i: nat, e: nat, rest: Str)
    requires LineAt(s, i, e) && JoinLines(s, e + 1) == rest
    ensures JoinLines(s, i) == s[i..e] + ([SPACE] + rest)
  {
    BreakBecomesSpace(s, i, e, e, e + 1);
  }

  lemma {:induction false} LineThenLines(s: Str, i: nat, lines: seq<Str>, rest: seq<Str>, e: nat)
    requires Trimmed(lines) && |lines| > 1 && rest == lines[1..] && i <= |s| && s[i..] == LineCalculus.JoinLines(lines)
    requires e == i + |lines[0]|
    ensures Trimmed(rest) && LineAt(s, i, e) && s[i..e] == lines[0] && s[e + 1..] == LineCalculus.JoinLines(rest)
  {
    assert Plain(lines[0]);
    assert Trimmed(rest) by { assert forall k :: 0 <= k < |rest| ==> rest[k] == lines[k + 1]; }
    RestStarts(rest);
    LineThenRest(s, i, lines[0], LineCalculus.JoinLines(rest));
  }

  lemma {:induction false} LineThenRest(s: Str, i: nat, first: Str, rest: Str)
    requires i <= |s| && s[i..] == first + ([LF] + rest) && Plain(first) && rest != [] && !IsSpace(rest[0])
    ensures var e := i + |first|; LineAt(s, i, e) && s[i..e] == first && s[e + 1..] == rest
  {
    var e, x := i + |first|, s[i..];
    assert x[..|first|] == first && s[i..e] == x[..|first|];
    forall k | i <= k < e ensures s[k] == first[k - i] { assert x[k - i] == s[k]; }
    assert s[e] == x[|first|] == LF;
    assert x[|first| + 1..] == rest && s[e + 1..] == x[|first| + 1..];
    assert s[e + 1] == rest[0];
  }

  lemma {:induction false} RestStarts(lines: seq<Str>)
    requires Trimmed(lines)
    ensures var x := LineCalculus.JoinLines(lines); x != [] && !IsSpace(x[0]) && !IsSpace(x[|x| - 1])
    decreases |lines|
  {
    assert Plain(lines[0]);
    if |lines| > 1 { RestStarts(lines[1..]); }
  }

  /** The lines of a text, once the prefix is taken off the first. */
  ghost predicate Lined(text: Str, prefix: Str, lines: seq<Str>, lead: Str) {
    && Trimmed(lines) && AllSpace(lead) && NoBreak(lead) && Lf(text) == prefix + (lead + LineCalculus.JoinLines(lines))
    && PrefixLength(prefix + (lead + lines[0])) == |prefix|
  }

  lemma {:induction false} LinedStarts(text: Str, prefix: Str, lines: seq<Str>, lead: Str, s: Str)
    requires Lined(text, prefix, lines, lead) && s == Lf(text) && NoBreak(prefix)
    ensures StripBreaks(s) == s && s[..NextBreak(s, 0)] == prefix + (lead + lines[0])
    ensures |prefix| <= |s| && s[|prefix|..] == lead + LineCalculus.JoinLines(lines)
    ensures LF in s <==> |lines| > 1
  {
    var x, first := LineCalculus.JoinLines(lines), prefix + (lead + lines[0]);
    RestStarts(lines);
    assert Plain(lines[0]);
    assert s[|s| - 1] == x[|x| - 1];
    FirstOfLines(lines, x);
    assert s == first + x[|lines[0]|..];
    assert NoBreak(first);
    assert forall k :: 0 <= k < |first| ==> s[k] == first[k];
    if |lines| > 1 { assert s[|first|] == x[|lines[0]|] == LF; }
    BreakIs(s, 0, |first|);
    assert s[0] == first[0];
    RunEndIs(s, 0, 0, IsLf);
    RunStartIs(s, |s|, |s|, IsLf);
    assert s[0..|s|] == s;
  }

  lemma {:induction false} FirstOfLines(lines: seq<Str>, x: Str)
    requires lines != [] && x == LineCalculus.JoinLines(lines)
    ensures |lines[0]| <= |x| && x == lines[0] + x[|lines[0]|..]
    ensures if |lines| == 1 then x == lines[0] else |lines[0]| < |x| && x[|lines[0]|] == LF
  {
  }

  /** Text of several lines that may be repaired: its trimmed lines, joined by spaces, are the instruction. */
  lemma {:induction false} DecoratedLines(kind: Kind, text: Str, o: Options, prefix: Str, lead: Str, lines: seq<Str>,
        body: Str)
    requires Lined(text, prefix, lines, lead) && NoBreak(prefix) && (o.sanitize || |lines| == 1)
    requires Instructs(kind, Spaced(lines), o, body)
    ensures Decorate(kind, text, o) == Outcome(kind, prefix, body, o)
  {
    var s, x, y := Lf(text), LineCalculus.JoinLines(lines), Spaced(lines);
    var first, n := prefix + (lead + lines[0]), |prefix|;
    LinedParts(text, prefix, lines, lead, s, first, x);
    assert first[..n] == prefix;
    assert y == (if o.sanitize then JoinLines(x, 0) else x) by { JoinedOrOne(lines, x); }
    assert Trim(y[OwnMarker(kind, y, o)..]) == body by {
      SpacedTrimmed(lines);
      InstructionIs(kind, y, o, body);
    }
    DecorateParts(kind, text, o, s, first, n, x, y, body);
  }

  lemma {:induction false} LinedParts(text: Str, prefix: Str, lines: seq<Str>, lead: Str, s: Str, first: Str, x: Str)
    requires Lined(text, prefix, lines, lead) && NoBreak(prefix) && s == Lf(text)
    requires first == prefix + (lead + lines[0]) && x == LineCalculus.JoinLines(lines)
    ensures s == StripBreaks(s) && first == s[..NextBreak(s, 0)] && |prefix| == PrefixLength(first)
    ensures |prefix| <= |s| && x == Trim(s[|prefix|..]) && (LF in s <==> |lines| > 1)
  {
    assert Trim(lead + x) == x by {
      RestStarts(lines);
      TrimCore(lead, x, []);
      assert lead + x + [] == lead + x;
    }
    LinedStarts(text, prefix, lines, lead, s);
  }

  lemma {:induction false} JoinedOrOne(lines: seq<Str>, x: Str)
    requires Trimmed(lines) && x == LineCalculus.JoinLines(lines)
    ensures JoinLines(x, 0) == Spaced(lines) && (|lines| == 1 ==> x == Spaced(lines))
  {
    assert x[0..] == x;
    var join := (k: nat) => if k <= |x| then JoinLines(x, k) else [];
    LinesJoined(x, join, 0, lines);
  }

  lemma {:induction false} DecorateParts(kind: Kind, text: Str, o: Options, s: Str, first: Str, n: nat, x: Str, y: Str,
        body: Str)
    requires s == StripBreaks(Lf(text)) && first == s[..NextBreak(s, 0)] && n == PrefixLength(first)
    requires (LF in s ==> o.sanitize) && x == Trim(s[n..]) && y == (if o.sanitize then JoinLines(x, 0) else x)
    requires Trim(y[OwnMarker(kind, y, o)..]) == body
    ensures Decorate(kind, text, o) == Outcome(kind, first[..n], body, o)
  {
    assert Said(kind, text, o) == body;
  }

  lemma {:induction false} SpacedTrimmed(lines: seq<Str>)
    requires Trimmed(lines)
    ensures Spaced(lines) != [] && Trim(Spaced(lines)) == Spaced(lines)
  {
    SpacedEnds(lines);
    TrimCore([], Spaced(lines), []);
    assert [] + Spaced(lines) + [] == Spaced(lines);
  }

  lemma {:induction false} SpacedEnds(lines: seq<Str>)
    requires Trimmed(lines)
    ensures var x := Spaced(lines); x != [] && !IsSpace(x[0]) && !IsSpace(x[|x| - 1])
    decreases |lines|
  {
    assert Plain(lines[0]);
    if |lines| > 1 { SpacedEnds(lines[1..]); }
  }
}
