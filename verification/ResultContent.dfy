/**
  What a result block holds: its opening line, the result, its closing line. The result is the text, trimmed, with
  LF breaks, except that the "<" of every marker in it is "&lt;"; putting those back gives the text again.
 */
module ResultContent {
  import opened Text
  import opened Markers
  import opened DiskSync
  import opened ResultBlocks

  /** How many markers start before n. */
  function MarkersBefore(s: Str, n: nat): nat
    requires n <= |s|
  {
    if n == 0 then 0 else MarkersBefore(s, n - 1) + if MarkerAt(s, n - 1) then 1 else 0
  }

  /** Where unit i of the text is in the result: three further for every marker before it. */
  function PlaceOf(s: Str, i: nat): nat
    requires i <= |s|
  {
    i + 3 * MarkersBefore(s, i)
  }

  /** A unit of the text stays; the "<" of a marker is "&lt;". */
  ghost predicate UnitKept(s: Str, i: nat, out: Str)
    requires i < |s|
  {
    var at := PlaceOf(s, i);
    if MarkerAt(s, i) then at + 4 <= |out| && out[at..at + 4] == [0x26, 0x6C, 0x74, 0x3B]
    else at < |out| && out[at] == s[i]
  }

  /** Every unit is accounted for, and there are no others. */
  ghost predicate HoldsText(out: Str, s: Str) {
    |out| == PlaceOf(s, |s|) && forall i :: 0 <= i < |s| ==> UnitKept(s, i, out)
  }

  lemma {:induction false} EscapeFrom(s: Str, i: nat, done: Str)
    requires i <= |s| && |done| == PlaceOf(s, i) && forall k :: 0 <= k < i ==> UnitKept(s, k, done)
    ensures HoldsText(done + Escape(s, i), s)
    decreases |s| - i
  {
    var piece := if i == |s| then [] else if MarkerAt(s, i) then LT_ENTITY else [s[i]];
    var more := done + piece;
    if i == |s| {
      assert done + Escape(s, i) == done;
    } else {
      forall k | 0 <= k < i ensures UnitKept(s, k, more) { KeptLonger(s, k, done, piece); }
      assert UnitKept(s, i, more) by { LastKept(s, i, done, piece); }
      EscapeFrom(s, i + 1, more);
      AppendStep(done, piece, Escape(s, i + 1));
    }
  }

  lemma {:induction false} KeptLonger(s: Str, k: nat, out: Str, more: Str)
    requires k < |s| && UnitKept(s, k, out)
    ensures UnitKept(s, k, out + more)
  {
    var at := PlaceOf(s, k);
    if MarkerAt(s, k) { assert (out + more)[at..at + 4] == out[at..at + 4]; }
  }

  lemma {:induction false} LastKept(s: Str, i: nat, done: Str, piece: Str)
    requires i < |s| && |done| == PlaceOf(s, i) && piece == if MarkerAt(s, i) then LT_ENTITY else [s[i]]
    ensures UnitKept(s, i, done + piece)
  {
    if MarkerAt(s, i) { assert (done + piece)[|done|..|done| + 4] == piece; }
  }

  /** The escaped text holds the text. */
  lemma {:induction false} EscapeHolds(s: Str)
    ensures HoldsText(Escape(s, 0), s)
  {
    EscapeFrom(s, 0, []);
    assert [] + Escape(s, 0) == Escape(s, 0);
  }

  /** Without a marker nothing changes. */
  lemma {:induction false} HoldsPlain(out: Str, s: Str)
    requires HoldsText(out, s) && !HasMarker(s)
    ensures out == s
  {
    NoMarkersBefore(s, |s|);
    forall i | 0 <= i < |s| ensures out[i] == s[i] {
      NoMarkersBefore(s, i);
      assert UnitKept(s, i, out);
    }
  }

  lemma {:induction false} NoMarkersBefore(s: Str, n: nat)
    requires n <= |s| && !HasMarker(s)
    ensures MarkersBefore(s, n) == 0
  {
    if n > 0 {
      NoMarkersBefore(s, n - 1);
      assert !MarkerAt(s, n - 1);
    }
  }

  // ----- putting back --------------------------------------------------------------------------------------

  /** The text again: a "<" for the four units at each of some places. */
  function PutBack(out: Str, at: nat, places: set<nat>): Str
    decreases |out| - at
  {
    if at >= |out| then [] else if at in places then [LESS] + PutBack(out, at + 4, places)
    else [out[at]] + PutBack(out, at + 1, places)
  }

  /** Where the markers of the text are in the result. */
  function EscapedPlaces(s: Str): set<nat> {
    set i: nat | i < |s| && MarkerAt(s, i) :: PlaceOf(s, i)
  }

  lemma {:induction false} PlacesGrow(s: Str, i: nat, j: nat)
    requires i < j <= |s|
    ensures PlaceOf(s, i) < PlaceOf(s, j)
    decreases j
  {
    if i < j - 1 { PlacesGrow(s, i, j - 1); }
  }

  lemma {:induction false} PlaceEscaped(s: Str, i: nat)
    requires i < |s|
    ensures PlaceOf(s, i) in EscapedPlaces(s) <==> MarkerAt(s, i)
  {
    if PlaceOf(s, i) in EscapedPlaces(s) {
      var j: nat :| j < |s| && MarkerAt(s, j) && PlaceOf(s, j) == PlaceOf(s, i);
      if j < i { PlacesGrow(s, j, i); }
      if i < j { PlacesGrow(s, i, j); }
    }
  }

  lemma {:induction false} PutsBackFrom(out: Str, s: Str, i: nat)
    requires HoldsText(out, s) && i <= |s|
    ensures PutBack(out, PlaceOf(s, i), EscapedPlaces(s)) == s[i..]
    decreases |s| - i
  {
    if i < |s| {
      PutsBackFrom(out, s, i + 1);
      PlaceEscaped(s, i);
      assert UnitKept(s, i, out);
      UnitPutBack(out, s, i, EscapedPlaces(s));
    } else {
      assert s[i..] == [];
    }
  }

  lemma {:induction false} UnitPutBack(out: Str, s: Str, i: nat, places: set<nat>)
    requires i < |s| && UnitKept(s, i, out) && (PlaceOf(s, i) in places <==> MarkerAt(s, i))
    requires PutBack(out, PlaceOf(s, i + 1), places) == s[i + 1..]
    ensures PutBack(out, PlaceOf(s, i), places) == s[i..]
  {
    assert s[i..] == [s[i]] + s[i + 1..];
    if MarkerAt(s, i) { assert s[i..][0] == LESS; }
  }

  /** Putting "<" back where a marker was gives the text. */
  lemma {:induction false} PutsBack(out: Str, s: Str)
    requires HoldsText(out, s)
    ensures PutBack(out, 0, EscapedPlaces(s)) == s
  {
    PutsBackFrom(out, s, 0);
    assert s[0..] == s;
  }

  // ----- the block -----------------------------------------------------------------------------------------

  /** "<!-- md-memo:res " */
  const RES_OPENING: Str :=
    [0x3C, 0x21, 0x2D, 0x2D, 0x20, 0x6D, 0x64, 0x2D, 0x6D, 0x65, 0x6D, 0x6F, 0x3A, 0x72, 0x65, 0x73, 0x20]

  /** " -->" */
  const COMMENT_END: Str := [0x20, 0x2D, 0x2D, 0x3E]

  /** "<!-- /md-memo:res -->" */
  const RES_CLOSING: Str :=
    [0x3C, 0x21, 0x2D, 0x2D, 0x20, 0x2F, 0x6D, 0x64, 0x2D, 0x6D, 0x65, 0x6D, 0x6F, 0x3A, 0x72, 0x65, 0x73,
     0x20, 0x2D, 0x2D, 0x3E]

  function OpeningLine(id: Str, attrs: Str): Str {
    RES_OPENING + (id + (attrs + COMMENT_END))
  }

  lemma {:induction false} OpenerIs(lowerId: Str, lowerAttrs: Str)
    ensures Opener(lowerId, lowerAttrs) == OpeningLine(CleanId(lowerId), AttrText(AttrWords(lowerAttrs)))
    ensures CLOSER == RES_CLOSING
  {
    var id, attrs := CleanId(lowerId), AttrText(AttrWords(lowerAttrs));
    var tail := id + (attrs + CLOSE);
    assert RES_OPENING == OPEN + (MD_MEMO + (RES + [SPACE]));
    assert RES_OPENING + tail == OPEN + (MD_MEMO + (RES + ([SPACE] + tail)));
  }

  /**
    The block as a whole: the opening line, then, when the trimmed text is not empty, lines that hold that text,
    then the closing line.
   */
  ghost predicate BlockOf(block: Str, opening: Str, said: Str, content: Str) {
    if said == [] then block == opening + ([LF] + RES_CLOSING)
    else HoldsText(content, said) && block == opening + ([LF] + (content + ([LF] + RES_CLOSING)))
  }

  lemma {:induction false} BlockHolds(lowerId: Str, text: Str, lowerAttrs: Str, opening: Str) returns (content: Str)
    requires opening == OpeningLine(CleanId(lowerId), AttrText(AttrWords(lowerAttrs)))
    ensures BlockOf(MakeResultBlock(lowerId, text, lowerAttrs), opening, Trim(Lf(text)), content)
    ensures PutBack(content, 0, EscapedPlaces(Trim(Lf(text)))) == Trim(Lf(text))
    ensures !HasMarker(Trim(Lf(text))) ==> content == Trim(Lf(text))
  {
    var said := Trim(Lf(text));
    content := ResultBody(text);
    OpenerIs(lowerId, lowerAttrs);
    EscapeHolds(said);
    PutsBack(content, said);
    if !HasMarker(said) { HoldsPlain(content, said); }
    if said != [] {
      PlacesGrow(said, 0, |said|);
    } else {
      assert content == [];
    }
  }

  /**
    What is found is what was said: the block under a task, found from anywhere on the task's line, is its opening
    line, the text, and its closing line.
   */
  lemma {:induction false} ResultComesBack(pre: Str, taskEnd: nat, lowerId: Str, text: Str, lowerAttrs: Str,
        post: Str, block: Str, note: Str)
    returns (found: Found, opening: Str, content: Str)
    requires taskEnd <= |pre| && (forall k :: taskEnd <= k < |pre| ==> pre[k] != LF) && EndsLine(post)
    requires block == MakeResultBlock(lowerId, text, lowerAttrs) && note == pre + ([LF] + (block + post))
    requires AllKeyValue(AttrWords(lowerAttrs))
    ensures ResultAfter(PATTERNS, note, taskEnd) == Option.Some(found) && found.isBlock
    ensures opening == OpeningLine(CleanId(lowerId), AttrText(AttrWords(lowerAttrs)))
    ensures found.start <= found.end <= |note|
    ensures BlockOf(note[found.start..found.end], opening, Trim(Lf(text)), content)
    ensures PutBack(content, 0, EscapedPlaces(Trim(Lf(text)))) == Trim(Lf(text))
    ensures !HasMarker(Trim(Lf(text))) ==> content == Trim(Lf(text))
  {
    var marker := Marker(false, CleanId(lowerId), Trim(AttrText(AttrWords(lowerAttrs))));
    found := Found(true, marker, |pre| + 1, |pre| + 1 + |block|);
    opening := OpeningLine(CleanId(lowerId), AttrText(AttrWords(lowerAttrs)));
    content :=
      PlacedHolds(lowerId, text, lowerAttrs, opening, pre, block, post, note, found.start, found.end);
    assert ResultAfter(PATTERNS, note, taskEnd) == Option.Some(found) by {
      BlockFound(pre, taskEnd, lowerId, text, lowerAttrs, post, block, note, marker, found);
    }
  }

  lemma {:induction false} PlacedHolds(lowerId: Str, text: Str, lowerAttrs: Str, opening: Str, pre: Str, block: Str,
        post: Str, note: Str, a: nat, b: nat)
    returns (content: Str)
    requires opening == OpeningLine(CleanId(lowerId), AttrText(AttrWords(lowerAttrs)))
    requires block == MakeResultBlock(lowerId, text, lowerAttrs) && note == pre + ([LF] + (block + post))
    requires a == |pre| + 1 && b == a + |block|
    ensures a <= b <= |note| && BlockOf(note[a..b], opening, Trim(Lf(text)), content)
    ensures PutBack(content, 0, EscapedPlaces(Trim(Lf(text)))) == Trim(Lf(text))
    ensures !HasMarker(Trim(Lf(text))) ==> content == Trim(Lf(text))
  {
    content := BlockHolds(lowerId, text, lowerAttrs, opening);
    assert a <= b <= |note| && note[a..b] == block by { BlockPlace(pre, block, post, note); }
  }

  lemma {:induction false} BlockFound(pre: Str, taskEnd: nat, lowerId: Str, text: Str, lowerAttrs: Str, post: Str,
        block: Str, note: Str, marker: Marker, found: Found)
    requires taskEnd <= |pre| && (forall k :: taskEnd <= k < |pre| ==> pre[k] != LF) && EndsLine(post)
    requires block == MakeResultBlock(lowerId, text, lowerAttrs) && note == pre + ([LF] + (block + post))
    requires AllKeyValue(AttrWords(lowerAttrs))
    requires marker == Marker(false, CleanId(lowerId), Trim(AttrText(AttrWords(lowerAttrs))))
    requires found == Found(true, marker, |pre| + 1, |pre| + 1 + |block|)
    ensures taskEnd <= |note| && ResultAfter(PATTERNS, note, taskEnd) == Option.Some(found)
  {
    ResultFound(pre, taskEnd, lowerId, text, lowerAttrs, post, block, note, Option.Some(marker), Option.Some(found));
  }

  lemma {:induction false} BlockPlace(pre: Str, block: Str, post: Str, note: Str)
    requires note == pre + ([LF] + (block + post))
    ensures |pre| + 1 + |block| <= |note| && note[|pre| + 1..|pre| + 1 + |block|] == block
  {
  }

  // ----- ids and attributes --------------------------------------------------------------------------------

  /** An id keeps its letters and digits; without any it is "0000". */
  lemma {:induction false} IdIs(lower: Str)
    ensures lower != [] && (forall k :: 0 <= k < |lower| ==> 0x61 <= lower[k] <= 0x7A || 0x30 <= lower[k] <= 0x39) ==>
      CleanId(lower) == lower
    ensures (forall k :: 0 <= k < |lower| ==> !(0x61 <= lower[k] <= 0x7A || 0x30 <= lower[k] <= 0x39)) ==>
      CleanId(lower) == [0x30, 0x30, 0x30, 0x30]
  {
    IdUnitsKept(lower);
  }

  lemma {:induction false} IdUnitsKept(s: Str)
    ensures (forall k :: 0 <= k < |s| ==> IdUnit(s[k])) ==> KeepIdUnits(s) == s
    ensures (forall k :: 0 <= k < |s| ==> !IdUnit(s[k])) ==> KeepIdUnits(s) == []
  {
    if s != [] {
      IdUnitsKept(s[1..]);
      assert s == [s[0]] + s[1..];
    }
  }

  lemma {:induction false} IdUnitKept(c: CodeUnit, x: Str)
    ensures KeepIdUnits([c] + x) == (if IdUnit(c) then [c] else []) + KeepIdUnits(x)
  {
    assert ([c] + x)[1..] == x;
  }

  /** The units of an id, whatever stands between them. */
  lemma {:induction false} IdAppend(a: Str, b: Str)
    ensures KeepIdUnits(a + b) == KeepIdUnits(a) + KeepIdUnits(b)
  {
    if a == [] {
      assert a + b == b;
    } else {
      var c, x := a[0], a[1..];
      IdAppend(x, b);
      assert a == [c] + x && a + b == [c] + (x + b);
      IdUnitKept(c, x + b);
      IdUnitKept(c, x);
    }
  }

  /** "_", "=", a letter or a digit */
  predicate WordPart(c: CodeUnit) {
    0x61 <= c <= 0x7A || 0x30 <= c <= 0x39 || c == 0x5F || c == 0x3D
  }

  /** The attributes are the runs of such units; whatever is between them is one space. */
  lemma {:induction false} WordsAre(junk: Str, word: Str, rest: Str)
    requires (forall k :: 0 <= k < |junk| ==> !WordPart(junk[k])) && (forall k :: 0 <= k < |word| ==> WordPart(word[k]))
    requires rest == [] || (word != [] && !WordPart(rest[0]))
    ensures AttrWords(junk + (word + rest)) == if word == [] then [] else [word] + AttrWords(rest)
    ensures word != [] ==> AttrText([word] + AttrWords(rest)) == [0x20] + (word + AttrText(AttrWords(rest)))
  {
    var s, i, e := junk + (word + rest), |junk|, |junk| + |word|;
    forall k | 0 <= k < i ensures NotAttrUnit(s[k]) { assert s[k] == junk[k]; }
    forall k | i <= k < e ensures AttrUnit(s[k]) { assert s[k] == word[k - i]; }
    assert rest != [] ==> s[e] == rest[0];
    assert word != [] ==> s[i] == word[0];
    RunEndIs(s, 0, i, NotAttrUnit);
    RunEndIs(s, i, e, AttrUnit);
    assert s[i..e] == word && s[e..] == rest;
    if word != [] { assert ([word] + AttrWords(rest))[1..] == AttrWords(rest); }
  }
}
