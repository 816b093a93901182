/** Line endings and the fingerprint on texts put together, and the values both sides of the application agree on. */
module SignatureVectors {
  import opened Text
  import opened DiskSync

  // ----- line endings --------------------------------------------------------------------------------------

  /** Text up to a break stays, and each of the three breaks becomes one line feed. */
  lemma {:induction false} LfBreaks(a: Str, rest: Str)
    requires CR !in a
    ensures Lf(a) == a
    ensures Lf(a + ([LF] + rest)) == a + ([LF] + Lf(rest))
    ensures Lf(a + ([CR, LF] + rest)) == a + ([LF] + Lf(rest))
    ensures rest == [] || rest[0] != LF ==> Lf(a + ([CR] + rest)) == a + ([LF] + Lf(rest))
  {
    LfIdentity(a);
    LfBehind(a, [LF] + rest);
    LfBehind(a, [CR, LF] + rest);
    LfBehind(a, [CR] + rest);
    assert ([LF] + rest)[1..] == rest && ([CR, LF] + rest)[2..] == rest && ([CR] + rest)[1..] == rest;
  }

  lemma {:induction false} LfBehind(a: Str, x: Str)
    requires CR !in a
    ensures Lf(a + x) == a + Lf(x)
  {
    if a == [] {
      assert a + x == x && [] + Lf(x) == Lf(x);
    } else {
      var tail := a[1..];
      assert a == [a[0]] + tail && a[0] in a && forall c :: c in tail ==> c in a;
      LfBehind(tail, x);
      assert (a + x)[1..] == tail + x;
      Associate([a[0]], tail, Lf(x));
    }
  }

  /** The breaks of a text before index n with a carriage return before them. */
  ghost function CrlfSet(s: Str, n: nat): set<nat>
    requires n <= |s|
  {
    set i: nat | i < n && CrlfAt(s, i)
  }

  /** And those without one. */
  ghost function BareSet(s: Str, n: nat): set<nat>
    requires n <= |s|
  {
    set i: nat | i < n && BareAt(s, i)
  }

  lemma {:induction false} BreaksAre(s: Str, n: nat)
    requires n <= |s|
    ensures CrlfBreaks(s, n) == |CrlfSet(s, n)| && BareBreaks(s, n) == |BareSet(s, n)|
  {
    if n > 0 {
      BreaksAre(s, n - 1);
      assert CrlfAt(s, n - 1) ==> CrlfSet(s, n) == CrlfSet(s, n - 1) + {n - 1};
      assert !CrlfAt(s, n - 1) ==> CrlfSet(s, n) == CrlfSet(s, n - 1);
      assert BareAt(s, n - 1) ==> BareSet(s, n) == BareSet(s, n - 1) + {n - 1};
      assert !BareAt(s, n - 1) ==> BareSet(s, n) == BareSet(s, n - 1);
    }
  }

  /** CRLF when more breaks have a carriage return than have none. */
  lemma {:induction false} EolIs(s: Str)
    ensures EolOf(s).CrlfEol? <==> |CrlfSet(s, |s|)| > |BareSet(s, |s|)|
  {
    BreaksAre(s, |s|);
  }

  // ----- the fingerprint of known texts --------------------------------------------------------------------

  lemma {:induction false} EmptyVector()
    ensures SignatureOf([]) == Signature(0, 0xB_DCB8_1AEE_8D83)
  {
    var l := Finish(SEED);
    assert l.h1 == 0x1AEE_8D83 && l.h2 & 0x1F_FFFF == 0x000B_DCB8;
  }

  /** "a" */
  lemma {:induction false} LetterVector(s: Str)
    requires s == [0x61]
    ensures SignatureOf(s) == Signature(1, 0x1C_2BA7_82C9_7901)
  {
    LfIdentity(s);
    assert s[1..] == [];
    var l := Mix(SEED, 0x61);
    assert l == Lanes(0xA9B3_DE2E, 0xAC71_1D6E);
    assert MixAll(SEED, s) == l;
    var f := Finish(l);
    assert f.h1 == 0x82C9_7901 && f.h2 & 0x1F_FFFF == 0x001C_2BA7;
  }

  /** One unit more. */
  lemma {:induction false} MixStep(l: Lanes, s: Str, i: nat, unit: CodeUnit, next: Lanes)
    requires i < |s| && s[i] == unit && next == Mix(l, unit)
    ensures MixAll(l, s[i..]) == MixAll(next, s[i + 1..])
  {
    assert s[i..][1..] == s[i + 1..];
  }

  /** "hello", a line feed, "world" */
  const HELLO: Str := [0x68, 0x65, 0x6C, 0x6C, 0x6F, 0xA, 0x77, 0x6F, 0x72, 0x6C, 0x64]

  lemma {:induction false} HelloFirst(s: Str)
    requires s == HELLO
    ensures MixAll(SEED, s[0..]) == MixAll(Lanes(0x40768B9E, 0x14124952), s[3..])
  {
    assert Mix(SEED, 0x68) == Lanes(0x562F8A57, 0x551A6AB);
    MixStep(SEED, s, 0, 0x68, Lanes(0x562F8A57, 0x551A6AB));
    assert Mix(Lanes(0x562F8A57, 0x551A6AB), 0x65) == Lanes(0x9BEE2E92, 0xF8548DE6);
    MixStep(Lanes(0x562F8A57, 0x551A6AB), s, 1, 0x65, Lanes(0x9BEE2E92, 0xF8548DE6));
    assert Mix(Lanes(0x9BEE2E92, 0xF8548DE6), 0x6C) == Lanes(0x40768B9E, 0x14124952);
    MixStep(Lanes(0x9BEE2E92, 0xF8548DE6), s, 2, 0x6C, Lanes(0x40768B9E, 0x14124952));
  }

  lemma {:induction false} HelloSecond(s: Str)
    requires s == HELLO
    ensures MixAll(Lanes(0x40768B9E, 0x14124952), s[3..]) == MixAll(Lanes(0x22497CF7, 0xBC309AF3), s[6..])
  {
    assert Mix(Lanes(0x40768B9E, 0x14124952), 0x6C) == Lanes(0x71A2452, 0xFF16D916);
    MixStep(Lanes(0x40768B9E, 0x14124952), s, 3, 0x6C, Lanes(0x71A2452, 0xFF16D916));
    assert Mix(Lanes(0x71A2452, 0xFF16D916), 0x6F) == Lanes(0xB34EE32D, 0x524CD76D);
    MixStep(Lanes(0x71A2452, 0xFF16D916), s, 4, 0x6F, Lanes(0xB34EE32D, 0x524CD76D));
    assert Mix(Lanes(0xB34EE32D, 0x524CD76D), 0xA) == Lanes(0x22497CF7, 0xBC309AF3);
    MixStep(Lanes(0xB34EE32D, 0x524CD76D), s, 5, 0xA, Lanes(0x22497CF7, 0xBC309AF3));
  }

  lemma {:induction false} HelloThird(s: Str)
    requires s == HELLO
    ensures MixAll(Lanes(0x22497CF7, 0xBC309AF3), s[6..]) == MixAll(Lanes(0x50708A3D, 0xA95FBA09), s[9..])
  {
    assert Mix(Lanes(0x22497CF7, 0xBC309AF3), 0x77) == Lanes(0x30279480, 0x7DF97ED4);
    MixStep(Lanes(0x22497CF7, 0xBC309AF3), s, 6, 0x77, Lanes(0x30279480, 0x7DF97ED4));
    assert Mix(Lanes(0x30279480, 0x7DF97ED4), 0x6F) == Lanes(0x821BF03F, 0x696ECED7);
    MixStep(Lanes(0x30279480, 0x7DF97ED4), s, 7, 0x6F, Lanes(0x821BF03F, 0x696ECED7));
    assert Mix(Lanes(0x821BF03F, 0x696ECED7), 0x72) == Lanes(0x50708A3D, 0xA95FBA09);
    MixStep(Lanes(0x821BF03F, 0x696ECED7), s, 8, 0x72, Lanes(0x50708A3D, 0xA95FBA09));
  }

  lemma {:induction false} HelloFourth(s: Str)
    requires s == HELLO
    ensures MixAll(Lanes(0x50708A3D, 0xA95FBA09), s[9..]) == MixAll(Lanes(0xEA4E7DD5, 0x68FBA8B1), s[11..])
  {
    assert Mix(Lanes(0x50708A3D, 0xA95FBA09), 0x6C) == Lanes(0x8496EB01, 0xB6FF0C9);
    MixStep(Lanes(0x50708A3D, 0xA95FBA09), s, 9, 0x6C, Lanes(0x8496EB01, 0xB6FF0C9));
    assert Mix(Lanes(0x8496EB01, 0xB6FF0C9), 0x64) == Lanes(0xEA4E7DD5, 0x68FBA8B1);
    MixStep(Lanes(0x8496EB01, 0xB6FF0C9), s, 10, 0x64, Lanes(0xEA4E7DD5, 0x68FBA8B1));
  }

  /** "hello" and "world" on two lines, whatever the line ending */
  lemma {:induction false} HelloVector(a: Str, b: Str)
    requires a == [0x68, 0x65, 0x6C, 0x6C, 0x6F] && b == [0x77, 0x6F, 0x72, 0x6C, 0x64]
    ensures SignatureOf(a + ([LF] + b)) == Signature(11, 0x6_BFBD_9B9E_5295)
    ensures SignatureOf(a + ([CR, LF] + b)) == Signature(11, 0x6_BFBD_9B9E_5295)
    ensures SignatureOf(a + ([CR] + b)) == Signature(11, 0x6_BFBD_9B9E_5295)
  {
    assert HELLO == a + ([LF] + b);
    LfBreaks(a, b);
    LfIdentity(b);
    HelloSignature(a + ([LF] + b));
    HelloSignature(a + ([CR, LF] + b));
    HelloSignature(a + ([CR] + b));
  }

  lemma {:induction false} HelloSignature(text: Str)
    requires Lf(text) == HELLO
    ensures SignatureOf(text) == Signature(11, 0x6_BFBD_9B9E_5295)
  {
    var l := Lanes(0xEA4E7DD5, 0x68FBA8B1);
    assert MixAll(SEED, HELLO) == l by { HelloMixed(HELLO); }
    HelloFinished(l);
  }

  lemma {:induction false} HelloFinished(l: Lanes)
    requires l == Lanes(0xEA4E7DD5, 0x68FBA8B1)
    ensures Combine(Finish(l)) == 0x6_BFBD_9B9E_5295
  {
    var f := Finish(l);
    assert f.h1 == 0x9B9E_5295 && f.h2 & 0x1F_FFFF == 0x0006_BFBD;
  }

  lemma {:induction false} HelloMixed(s: Str)
    requires s == HELLO
    ensures MixAll(SEED, s) == Lanes(0xEA4E7DD5, 0x68FBA8B1)
  {
    HelloFirst(s);
    HelloSecond(s);
    HelloThird(s);
    HelloFourth(s);
    assert s[0..] == s && s[11..] == [];
  }
}
