/**
  Nothing but white space is lost when a text is made into a task: its other units, in order, are those of the prefix,
  of the marker it may already have, and of the instruction that is written.
 */
module SolidUnits {
  import opened Text
  import opened LinePrefix
  import opened Notations
  import opened DiskSync
  import opened Tasks
  import opened TaskWriting
  import opened TaskForms
  import opened DecoratedText

  /** The units of a text that are not white space. */
  function Solid(s: Str): Str {
    if s == [] then [] else (if IsSpace(s[0]) then [] else [s[0]]) + Solid(s[1..])
  }

  lemma {:induction false} SolidUnit(c: CodeUnit, x: Str)
    ensures Solid([c] + x) == (if IsSpace(c) then [] else [c]) + Solid(x)
  {
    assert ([c] + x)[1..] == x;
  }

  lemma {:induction false} SolidAppend(a: Str, b: Str)
    ensures Solid(a + b) == Solid(a) + Solid(b)
  {
    if a == [] {
      assert a + b == b;
    } else {
      SolidAppend(a[1..], b);
      assert a + b == [a[0]] + (a[1..] + b) && a == [a[0]] + a[1..];
      SolidUnit(a[0], a[1..] + b);
      SolidUnit(a[0], a[1..]);
      Associate(if IsSpace(a[0]) then [] else [a[0]], Solid(a[1..]), Solid(b));
    }
  }

  lemma {:induction false} SolidSpace(s: Str)
    requires AllSpace(s)
    ensures Solid(s) == []
  {
    if s != [] { SolidSpace(s[1..]); }
  }

  lemma {:induction false} SolidBetween(s: Str, a: nat, b: nat)
    requires a <= b <= |s| && forall k :: a <= k < b ==> IsSpace(s[k])
    ensures Solid(s[a..]) == Solid(s[b..])
  {
    assert s[a..] == s[a..b] + s[b..];
    SolidAppend(s[a..b], s[b..]);
    SolidSpace(s[a..b]);
  }

  lemma {:induction false} SolidSlice(s: Str, a: nat, b: nat)
    requires a <= b <= |s|
    requires (forall k :: 0 <= k < a ==> IsSpace(s[k])) && forall k :: b <= k < |s| ==> IsSpace(s[k])
    ensures Solid(s[a..b]) == Solid(s)
  {
    SolidBetween(s, 0, a);
    assert s[0..] == s && s[a..] == s[a..b] + s[b..];
    SolidAppend(s[a..b], s[b..]);
    SolidSpace(s[b..]);
  }

  lemma {:induction false} SolidTrim(s: Str)
    ensures Solid(Trim(s)) == Solid(s)
  {
    var b, e := RunEnd(s, 0, IsSpace), RunStart(s, |s|, IsSpace);
    if b < e { SolidSlice(s, b, e); } else { SolidSpace(s); }
  }

  lemma {:induction false} SolidStripBreaks(s: Str)
    ensures Solid(StripBreaks(s)) == Solid(s)
  {
    var b, e := RunEnd(s, 0, IsLf), RunStart(s, |s|, IsLf);
    if b < e { SolidSlice(s, b, e); } else { SolidSpace(s); }
  }

  lemma {:induction false} SolidLf(s: Str)
    ensures Solid(Lf(s)) == Solid(s)
    decreases |s|
  {
    if s != [] {
      if s[0] == CR {
        var n := if |s| > 1 && s[1] == LF then 2 else 1;
        SolidLf(s[n..]);
        SolidBetween(s, 0, n);
        assert s[0..] == s && ([LF] + Lf(s[n..]))[1..] == Lf(s[n..]);
      } else {
        SolidLf(s[1..]);
        assert ([s[0]] + Lf(s[1..]))[1..] == Lf(s[1..]);
      }
    }
  }

  lemma {:induction false} SolidJoined(s: Str, i: nat)
    requires i <= |s|
    ensures Solid(JoinLines(s, i)) == Solid(s[i..])
    decreases |s| - i
  {
    if i < |s| {
      var w := RunEnd(s, i, IsBlank);
      if w < |s| && s[w] == LF {
        SolidJoined(s, RunEnd(s, w + 1, IsSpace));
        SolidAtBreak(s, i, w, RunEnd(s, w + 1, IsSpace));
      } else {
        SolidJoined(s, i + 1);
        SolidAtUnit(s, i, w);
      }
    }
  }

  lemma {:induction false} SolidAtBreak(s: Str, i: nat, w: nat, e: nat)
    requires i < |s| && w == RunEnd(s, i, IsBlank) < |s| && s[w] == LF && e == RunEnd(s, w + 1, IsSpace)
    requires Solid(JoinLines(s, e)) == Solid(s[e..])
    ensures Solid(JoinLines(s, i)) == Solid(s[i..])
  {
    JoinAtBreak(s, i, w, e, JoinLines(s, e));
    SolidUnit(SPACE, JoinLines(s, e));
    forall k | i <= k < e ensures IsSpace(s[k]) { assert k < w ==> IsBlank(s[k]); }
    SolidBetween(s, i, e);
  }

  lemma {:induction false} SolidAtUnit(s: Str, i: nat, w: nat)
    requires i < |s| && w == RunEnd(s, i, IsBlank) && (w < |s| ==> s[w] != LF)
    requires Solid(JoinLines(s, i + 1)) == Solid(s[i + 1..])
    ensures Solid(JoinLines(s, i)) == Solid(s[i..])
  {
    JoinAtUnit(s, i, w, JoinLines(s, i + 1));
    SolidUnit(s[i], JoinLines(s, i + 1));
    SolidUnit(s[i], s[i + 1..]);
    assert s[i..] == [s[i]] + s[i + 1..];
  }

  lemma {:induction false} SolidSpaced(s: Str, i: nat, c: CodeUnit)
    requires i <= |s|
    ensures Solid(SpaceOut(s, i, c)) == Solid(s[i..])
    decreases |s| - i
  {
    if i < |s| {
      if PairAt(s, i, c) {
        SolidSpaced(s, i + 2, c);
        SolidAppend([c, SPACE, c], SpaceOut(s, i + 2, c));
        assert s[i..] == [c, c] + s[i + 2..];
        SolidAppend([c, c], s[i + 2..]);
        PairSolid(c);
      } else {
        SolidSpaced(s, i + 1, c);
        SolidUnit(s[i], SpaceOut(s, i + 1, c));
        SolidUnit(s[i], s[i + 1..]);
        assert s[i..] == [s[i]] + s[i + 1..];
      }
    }
  }

  lemma {:induction false} PairSolid(c: CodeUnit)
    ensures Solid([c, SPACE, c]) == Solid([c, c])
  {
    assert [c, SPACE, c] == [c] + ([SPACE] + [c]) && [c, c] == [c] + [c];
    SolidUnit(c, [SPACE] + [c]);
    SolidUnit(SPACE, [c]);
    SolidUnit(c, [c]);
  }

  lemma {:induction false} SolidNeutralized(p: Brackets, s: Str)
    ensures Solid(Neutralize(p, s)) == Solid(s)
  {
    var once := SpaceOut(s, 0, p.Open());
    SolidSpaced(s, 0, p.Open());
    SolidSpaced(once, 0, p.Close());
    assert s[0..] == s && once[0..] == once;
  }

  /** The text that the marker is looked for in: one line, behind the prefix. */
  lemma {:induction false} BehindPrefix(text: Str, s: Str, n: nat, y: Str, sanitize: bool)
    requires s == StripBreaks(Lf(text)) && n <= |s|
    requires y == if sanitize then JoinLines(Trim(s[n..]), 0) else Trim(s[n..])
    ensures Solid(text) == Solid(s[..n]) + Solid(y)
  {
    SolidLf(text);
    SolidStripBreaks(Lf(text));
    assert s == s[..n] + s[n..];
    SolidAppend(s[..n], s[n..]);
    SolidTrim(s[n..]);
    SolidJoined(Trim(s[n..]), 0);
    assert Trim(s[n..])[0..] == Trim(s[n..]);
  }

  /** What the text says behind its own marker, if it has one. */
  lemma {:induction false} BehindMarker(kind: Kind, y: Str, o: Options, said: Str)
    requires said == Trim(y[OwnMarker(kind, y, o)..])
    ensures if exists rest :: OwnForm(kind, y, o, rest)
      then exists rest :: OwnForm(kind, y, o, rest) && Solid(said) == Solid(rest)
      else Solid(said) == Solid(y)
  {
    MarkerIs(kind, y, o);
    SolidTrim(y[OwnMarker(kind, y, o)..]);
    if exists rest :: OwnForm(kind, y, o, rest) {
      var rest :| OwnForm(kind, y, o, rest);
      assert OwnForm(kind, y, o, rest) && Solid(said) == Solid(rest);
    } else {
      assert y[0..] == y;
    }
  }

  /**
    Whatever the text, and however it is repaired: its units that are not white space are those of the prefix and of
    one line y; and what is written holds those of y, or those behind the marker of its kind that y starts with.
   */
  lemma {:induction false} UnitsSurvive(kind: Kind, text: Str, o: Options, w: Written) returns (y: Str)
    requires Decorate(kind, text, o) == Some(w)
    ensures Solid(text) == Solid(w.prefix) + Solid(y) && NoBreak(y)
    ensures if exists rest :: OwnForm(kind, y, o, rest)
      then exists rest :: OwnForm(kind, y, o, rest) && Solid(w.body) == Solid(rest)
      else Solid(w.body) == Solid(y)
  {
    var s := StripBreaks(Lf(text));
    var n := PrefixLength(s[..NextBreak(s, 0)]);
    y := if o.sanitize then JoinLines(Trim(s[n..]), 0) else Trim(s[n..]);
    var said := Said(kind, text, o);
    DecorateKeeps(kind, text, o, w, s, said);
    FirstPart(s, n);
    OneLine(s, n, o.sanitize, y);
    BehindPrefix(text, s, n, y, o.sanitize);
    SaidIs(kind, text, o, s, n, y, said);
    BehindMarker(kind, y, o, said);
  }

  lemma {:induction false} FirstPart(s: Str, n: nat)
    requires n <= NextBreak(s, 0)
    ensures s[..NextBreak(s, 0)][..n] == s[..n]
  {
  }

  lemma {:induction false} OneLine(s: Str, n: nat, sanitize: bool, y: Str)
    requires n <= |s| && (LF !in s || sanitize)
    requires y == if sanitize then JoinLines(Trim(s[n..]), 0) else Trim(s[n..])
    ensures NoBreak(y)
  {
    if !sanitize { assert NoBreak(s[n..]); }
  }

  lemma {:induction false} SaidIs(kind: Kind, text: Str, o: Options, s: Str, n: nat, y: Str, said: Str)
    requires s == StripBreaks(Lf(text)) && n == PrefixLength(s[..NextBreak(s, 0)]) && said == Said(kind, text, o)
    requires y == if o.sanitize then JoinLines(Trim(s[n..]), 0) else Trim(s[n..])
    ensures said == Trim(y[OwnMarker(kind, y, o)..])
  {
  }

  lemma {:induction false} DecorateKeeps(kind: Kind, text: Str, o: Options, w: Written, s: Str, said: Str)
    requires Decorate(kind, text, o) == Some(w) && said == Said(kind, text, o) && s == StripBreaks(Lf(text))
    ensures var first := s[..NextBreak(s, 0)]; w.prefix == first[..PrefixLength(first)]
    ensures (LF !in s || o.sanitize) && Solid(w.body) == Solid(said)
  {
    SolidNeutralized(kind.Brackets(), said);
  }
}
