/**
  A note's line endings and its fingerprint: the editor holds LF text, a save writes the file's own endings
  back, and the fingerprint does not depend on them.
 */
module DiskSync {
  import opened Text

  // ----- line endings --------------------------------------------------------------------------------------

  /** Every CR LF and every lone CR becomes LF. */
  function Lf(s: Str): (r: Str)
    ensures CR !in r
    decreases |s|
  {
    if s == [] then []
    else if s[0] == CR then [LF] + Lf(s[if |s| > 1 && s[1] == LF then 2 else 1..])
    else [s[0]] + Lf(s[1..])
  }

  /** Every LF becomes CR LF. */
  function Crlf(s: Str): Str {
    if s == [] then [] else (if s[0] == LF then [CR, LF] else [s[0]]) + Crlf(s[1..])
  }

  datatype Eol = LfEol | CrlfEol

  /** What saving puts on disk: every break of the text in the one style of the file. */
  function ApplyEol(text: Str, eol: Eol): Str {
    if eol.LfEol? || LF !in text then text else Crlf(Lf(text))
  }

  /** Does the break at index i have a CR before it? */
  predicate CrlfAt(s: Str, i: nat) {
    0 < i < |s| && s[i] == LF && s[i - 1] == CR
  }

  predicate BareAt(s: Str, i: nat) {
    i < |s| && s[i] == LF && !CrlfAt(s, i)
  }

  function CrlfBreaks(s: Str, n: nat): (k: nat)
    requires n <= |s|
  {
    if n == 0 then 0 else CrlfBreaks(s, n - 1) + if CrlfAt(s, n - 1) then 1 else 0
  }

  function BareBreaks(s: Str, n: nat): (k: nat)
    requires n <= |s|
  {
    if n == 0 then 0 else BareBreaks(s, n - 1) + if BareAt(s, n - 1) then 1 else 0
  }

  /** CRLF when most of the breaks have it. */
  function EolOf(s: Str): Eol {
    if CrlfBreaks(s, |s|) > BareBreaks(s, |s|) then CrlfEol else LfEol
  }

  method DetectEol(s: Str) returns (eol: Eol)
    ensures eol == EolOf(s)
  {
    var crlf, bare := 0, 0;
    var i := NextBreak(s, 0);
    NoBreaksBetween(s, 0, i);
    while i < |s|
      invariant i <= |s| && (i < |s| ==> s[i] == LF)
      invariant crlf == CrlfBreaks(s, i) && bare == BareBreaks(s, i)
    {
      if i > 0 && s[i - 1] == CR {
        crlf := crlf + 1;
      } else {
        bare := bare + 1;
      }
      var next := NextBreak(s, i + 1);
      NoBreaksBetween(s, i + 1, next);
      i := next;
    }
    eol := if crlf > bare then CrlfEol else LfEol;
  }

  lemma {:induction false} NoBreaksBetween(s: Str, a: nat, b: nat)
    requires a <= b <= |s| && forall k :: a <= k < b ==> s[k] != LF
    ensures CrlfBreaks(s, b) == CrlfBreaks(s, a) && BareBreaks(s, b) == BareBreaks(s, a)
    decreases b
  {
    if a < b { NoBreaksBetween(s, a, b - 1); }
  }

  predicate OnlyLf(s: Str) { CR !in s }

  /** Every CR is followed by an LF and every LF follows a CR. */
  predicate OnlyCrlf(s: Str) {
    if s == [] then true
    else if s[0] == CR then |s| > 1 && s[1] == LF && OnlyCrlf(s[2..])
    else s[0] != LF && OnlyCrlf(s[1..])
  }

  lemma {:induction false} LfIdentity(s: Str)
    requires OnlyLf(s)
    ensures Lf(s) == s
  {
    if s != [] {
      assert s[0] in s && forall c :: c in s[1..] ==> c in s;
      LfIdentity(s[1..]);
      assert s == [s[0]] + s[1..];
    }
  }

  lemma {:induction false} CrlfOfLf(s: Str)
    requires OnlyCrlf(s)
    ensures Crlf(Lf(s)) == s
    ensures LF in s <==> LF in Lf(s)
    decreases |s|
  {
    if s != [] {
      if s[0] == CR {
        CrlfOfLf(s[2..]);
        assert s == [CR, LF] + s[2..];
        assert Lf(s)[1..] == Lf(s[2..]);
      } else {
        CrlfOfLf(s[1..]);
        assert s == [s[0]] + s[1..];
        assert Lf(s)[1..] == Lf(s[1..]);
      }
    }
  }

  lemma {:induction false} CrlfIsOnly(s: Str)
    requires OnlyLf(s)
    ensures OnlyCrlf(Crlf(s)) && Lf(Crlf(s)) == s
  {
    if s != [] {
      assert s[0] in s && forall c :: c in s[1..] ==> c in s;
      CrlfIsOnly(s[1..]);
      var rest := Crlf(s[1..]);
      if s[0] == LF {
        assert ([CR, LF] + rest)[2..] == rest;
      } else {
        assert ([s[0]] + rest)[1..] == rest;
      }
      assert s == [s[0]] + s[1..];
    }
  }

  lemma {:induction false} LfKeepsBreaks(s: Str)
    requires LF in s
    ensures LF in Lf(s)
    decreases |s|
  {
    var i :| 0 <= i < |s| && s[i] == LF;
    if s[0] != LF && s[0] != CR {
      assert s[1..][i - 1] == LF;
      LfKeepsBreaks(s[1..]);
      assert Lf(s) == [s[0]] + Lf(s[1..]);
    } else {
      assert Lf(s)[0] == LF;
    }
  }

  lemma {:induction false} CrlfCounts(s: Str, n: nat)
    requires n <= |s|
    ensures CrlfBreaks(s, n) > 0 ==> LF in s && CR in s
    ensures OnlyLf(s) ==> CrlfBreaks(s, n) == 0
  {
    if n > 0 { CrlfCounts(s, n - 1); }
  }

  lemma {:induction false} OnlyCrlfNoBare(s: Str, i: nat)
    requires OnlyCrlf(s) && i < |s| && s[i] == LF
    ensures CrlfAt(s, i)
    decreases |s|
  {
    if s[0] == CR {
      if i > 1 { OnlyCrlfNoBare(s[2..], i - 2); }
    } else {
      OnlyCrlfNoBare(s[1..], i - 1);
    }
  }

  lemma {:induction false} OnlyCrlfCounts(s: Str, n: nat)
    requires OnlyCrlf(s) && n <= |s|
    ensures BareBreaks(s, n) == 0
    ensures (exists k :: 0 <= k < n && s[k] == LF) ==> CrlfBreaks(s, n) > 0
  {
    if n > 0 {
      OnlyCrlfCounts(s, n - 1);
      if s[n - 1] == LF { OnlyCrlfNoBare(s, n - 1); }
    }
  }

  /**
    A file read, edited into LF and written back with the ending that was detected is the same file exactly
    when it used one ending throughout: LF only (and no lone CR), or CRLF only.
   */
  lemma {:induction false} EndingsComeBack(t: Str)
    ensures ApplyEol(Lf(t), EolOf(t)) == t <==> OnlyLf(t) || OnlyCrlf(t)
  {
    LfIdentity(Lf(t));
    CrlfIsOnly(Lf(t));
    CrlfCounts(t, |t|);
    if OnlyLf(t) {
      LfIdentity(t);
    } else if OnlyCrlf(t) {
      CrlfOfLf(t);
      OnlyCrlfCounts(t, |t|);
      CarriageHasBreak(t);
    } else if EolOf(t).CrlfEol? {
      LfKeepsBreaks(t);
    }
  }

  lemma {:induction false} CarriageHasBreak(t: Str)
    requires OnlyCrlf(t) && CR in t
    ensures exists k :: 0 <= k < |t| && t[k] == LF
    decreases |t|
  {
    if t[0] == CR {
      assert t[1] == LF;
    } else {
      CarriageHasBreak(t[1..]);
      var k :| 0 <= k < |t[1..]| && t[1..][k] == LF;
      assert t[k + 1] == LF;
    }
  }

  // ----- the fingerprint -----------------------------------------------------------------------------------

  datatype Lanes = Lanes(h1: bv32, h2: bv32)

  /** One code unit into both lanes (the products wrap at 32 bits). */
  function Mix(l: Lanes, unit: CodeUnit): Lanes {
    Lanes((l.h1 ^ (unit as bv32)) * 2654435761, (l.h2 ^ (unit as bv32)) * 1597334677)
  }

  function MixAll(l: Lanes, s: Str): Lanes
    decreases |s|
  {
    if s == [] then l else MixAll(Mix(l, s[0]), s[1..])
  }

  function Finish(l: Lanes): Lanes {
    var a := (l.h1 ^ (l.h1 >> 16)) * 2246822507;
    var h1 := a ^ ((l.h2 ^ (l.h2 >> 13)) * 3266489909);
    var b := (l.h2 ^ (l.h2 >> 16)) * 2246822507;
    Lanes(h1, b ^ ((h1 ^ (h1 >> 13)) * 3266489909))
  }

  /** 2^32 times the low 21 bits of one lane, plus the other. */
  function Combine(l: Lanes): (value: nat)
    ensures value < 0x20_0000_0000_0000
  {
    0x1_0000_0000 * Low21(l.h2) + Unsigned(l.h1)
  }

  function Low21(x: bv32): (r: nat)
    ensures r < 0x20_0000
  {
    ((x & 0x1F_FFFF) as bv21) as nat
  }

  function Unsigned(x: bv32): (r: nat)
    ensures r < 0x1_0000_0000
  {
    x as nat
  }

  /** The length of the LF text and its hash; the file's line endings do not count. */
  datatype Signature = Signature(length: nat, value: nat)

  const SEED := Lanes(0xDEADBEEF, 0x41C6CE57)

  function SignatureOf(text: Str): Signature {
    Signature(|Lf(text)|, Combine(Finish(MixAll(SEED, Lf(text)))))
  }

  method Sum(text: Str) returns (sig: Signature)
    ensures sig == SignatureOf(text)
    ensures sig.value < 0x20_0000_0000_0000
  {
    var s := Lf(text);
    var l := SEED;
    for i := 0 to |s|
      invariant MixAll(l, s[i..]) == MixAll(SEED, s)
    {
      assert s[i..][1..] == s[i + 1..];
      l := Mix(l, s[i]);
    }
    assert s[|s|..] == [];
    sig := Signature(|s|, Combine(Finish(l)));
  }

  /** Writing a text with either ending does not change its fingerprint, whatever its own endings are. */
  lemma {:induction false} SumIgnoresEndings(t: Str, eol: Eol)
    ensures Lf(ApplyEol(t, eol)) == Lf(t)
    ensures SignatureOf(ApplyEol(t, eol)) == SignatureOf(t)
  {
    CrlfIsOnly(Lf(t));
  }
}
