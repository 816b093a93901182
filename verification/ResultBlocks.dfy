/**
  Result blocks: what a finished task writes under its line, and how it is found again. A block is
  "<!-- md-memo:res id attrs -->", the result, "<!-- /md-memo:res -->". Ids, results and attributes reach
  `MakeResultBlock` as any strings; lower-casing the first and the last is done before, so they stand for
  whatever it gives.
 */
module ResultBlocks {
  import opened Text
  import opened Markers
  import opened DiskSync

  const EQUALS: CodeUnit := 0x3D
  const UNDERSCORE: CodeUnit := 0x5F
  const AMPERSAND: CodeUnit := 0x26
  const ZERO: CodeUnit := 0x30

  /** "res" and "run" */
  const RES: Str := [0x72, 0x65, 0x73]
  const RUN: Str := [0x72, 0x75, 0x6E]
  /** "&lt;" */
  const LT_ENTITY: Str := [AMPERSAND, 0x6C, 0x74, 0x3B]
  /** "<!-- " and " -->" */
  const OPEN: Str := [LESS, BANG, DASH, DASH, SPACE]
  const CLOSE: Str := [SPACE, DASH, DASH, GREATER]
  /** "<!-- /md-memo:res -->" */
  const CLOSER: Str := OPEN + ([SLASH] + (MD_MEMO + (RES + CLOSE)))

  predicate IdUnit(c: CodeUnit) { 0x61 <= c <= 0x7A || 0x30 <= c <= 0x39 }

  predicate WordUnit(c: CodeUnit) { IdUnit(c) || c == UNDERSCORE }

  predicate AttrUnit(c: CodeUnit) { WordUnit(c) || c == EQUALS }

  predicate NotAttrUnit(c: CodeUnit) { !AttrUnit(c) }

  // ----- writing -------------------------------------------------------------------------------------------

  function KeepIdUnits(s: Str): (r: Str)
    ensures forall k :: 0 <= k < |r| ==> IdUnit(r[k])
  {
    if s == [] then [] else (if IdUnit(s[0]) then [s[0]] else []) + KeepIdUnits(s[1..])
  }

  function CleanId(lower: Str): (id: Str)
    ensures id != [] && forall k :: 0 <= k < |id| ==> IdUnit(id[k])
  {
    if KeepIdUnits(lower) == [] then [ZERO, ZERO, ZERO, ZERO] else KeepIdUnits(lower)
  }

  /** The words of an attribute text; anything else only separates them. */
  function AttrWords(lower: Str): (words: seq<Str>)
    ensures forall k :: 0 <= k < |words| ==> AttrWord(words[k])
    decreases |lower|
  {
    var i := RunEnd(lower, 0, NotAttrUnit);
    if i == |lower| then []
    else
      var e := RunEnd(lower, i, AttrUnit);
      [lower[i..e]] + AttrWords(lower[e..])
  }

  predicate AttrWord(w: Str) {
    w != [] && forall k :: 0 <= k < |w| ==> AttrUnit(w[k])
  }

  /** Each word with a space before it. */
  function AttrText(words: seq<Str>): Str {
    if words == [] then [] else [SPACE] + (words[0] + AttrText(words[1..]))
  }

  /** A "<!--" that starts a marker loses its "<"; a marker holds no other "<", so no two overlap. */
  function Escape(s: Str, i: nat): Str
    requires i <= |s|
    decreases |s| - i
  {
    if i == |s| then [] else (if MarkerAt(s, i) then LT_ENTITY else [s[i]]) + Escape(s, i + 1)
  }

  function Opener(lowerId: Str, lowerAttrs: Str): Str {
    OPEN + (MD_MEMO + (RES + ([SPACE] + (CleanId(lowerId) + (AttrText(AttrWords(lowerAttrs)) + CLOSE)))))
  }

  function ResultBody(text: Str): Str {
    Escape(Trim(Lf(text)), 0)
  }

  function Block(opener: Str, body: Str, closer: Str): Str {
    opener + ([LF] + (if body == [] then closer else body + ([LF] + closer)))
  }

  function MakeResultBlock(lowerId: Str, text: Str, lowerAttrs: Str): Str {
    Block(Opener(lowerId, lowerAttrs), ResultBody(text), CLOSER)
  }

  // ----- reading -------------------------------------------------------------------------------------------

  predicate StartsWith(s: Str, w: Str) {
    |w| <= |s| && s[..|w|] == w
  }

  function SkipSpace(s: Str): Str {
    s[RunEnd(s, 0, IsSpace)..]
  }

  /** What follows blanks, a "<!--" and white space on a line. */
  function AfterOpen(line: Str): Option<Str> {
    var x := line[RunEnd(line, 0, IsBlank)..];
    if OpensAt(x, 0) then Some(x[RunEnd(x, 4, IsSpace)..]) else None
  }

  /** White space, "-->", and only blanks behind it. */
  predicate IsEnd(s: Str) {
    var r := SkipSpace(s);
    ArrowAt(r, 0) && RunEnd(r, 3, IsBlank) == |r|
  }

  /** The closing line of a block. */
  predicate IsCloser(line: Str) {
    var r := AfterOpen(line);
    r.Some? && StartsWith(r.value, [SLASH] + (MD_MEMO + RES)) && IsEnd(r.value[12..])
  }

  /** The start of any marker line: a run or a result opener. */
  predicate IsAnyOpener(line: Str) {
    var r := AfterOpen(line);
    r.Some? && (StartsWith(r.value, MD_MEMO + RUN) || StartsWith(r.value, MD_MEMO + RES)) &&
    |r.value| > 11 && IsSpace(r.value[11])
  }

  /** How far the " key=value" words at the front of a text go. */
  function AttrsLength(s: Str): (n: nat)
    ensures n <= |s|
    decreases |s|
  {
    var w := RunEnd(s, 0, IsSpace);
    var key := RunEnd(s, w, WordUnit);
    if w == 0 || key == w || key == |s| || s[key] != EQUALS then 0
    else
      var v := RunEnd(s, key + 1, WordUnit);
      if v == key + 1 then 0 else v + AttrsLength(s[v..])
  }

  datatype Marker = Marker(isRun: bool, id: Str, attrs: Str)

  /** White space, an id, attributes and the end of the comment. */
  function ReadIdAndAttrs(s: Str): Option<(Str, Str)> {
    var x := SkipSpace(s);
    var e := RunEnd(x, 0, IdUnit);
    var y := x[e..];
    var n := AttrsLength(y);
    if |x| == |s| || e == 0 || !IsEnd(y[n..]) then None else Some((x[..e], Trim(y[..n])))
  }

  /** A whole marker line. */
  function ReadMarker(line: Str): Option<Marker> {
    var r := AfterOpen(line);
    if r.None? || !(StartsWith(r.value, MD_MEMO + RUN) || StartsWith(r.value, MD_MEMO + RES)) then None
    else
      match ReadIdAndAttrs(r.value[11..])
      case None => None
      case Some((id, attrs)) => Some(Marker(StartsWith(r.value, MD_MEMO + RUN), id, attrs))
  }

  /** What is under a task: a whole block, or a single marker line. [start, end) is exactly that text. */
  datatype Found = Found(isBlock: bool, marker: Marker, start: nat, end: nat)

  type LineTest = Str -> bool

  /** The three expressions the finder tests lines with. */
  datatype Patterns = Patterns(read: Str -> Option<Marker>, isCloser: LineTest, isOpener: LineTest)

  const PATTERNS := Patterns(ReadMarker, IsCloser, IsAnyOpener)

  /** The end of the block whose next line starts at p, if a closing line comes before another opener. */
  function CloseFrom(isCloser: LineTest, isOpener: LineTest, t: Str, p: nat): Option<nat>
    requires p <= |t| + 1
    decreases |t| + 1 - p
  {
    if p > |t| then None
    else
      var line := t[p..LineEnd(t, p)];
      if isCloser(line) then Some(p + RunStart(line, |line|, IsBlank))
      else if isOpener(line) then None
      else CloseFrom(isCloser, isOpener, t, NextBreak(t, p) + 1)
  }

  function ResultAfter(rx: Patterns, t: Str, taskEnd: nat): Option<Found>
    requires taskEnd <= |t|
  {
    var nl := NextBreak(t, taskEnd);
    if nl == |t| then None
    else
      var ls, le := nl + 1, LineEnd(t, nl + 1);
      var line := t[ls..le];
      var m := rx.read(line);
      if m.None? then None
      else
        var start, openEnd := ls + RunEnd(line, 0, IsBlank), ls + RunStart(line, |line|, IsBlank);
        var close := if m.value.isRun then None else CloseFrom(rx.isCloser, rx.isOpener, t, le + 1);
        Some(if close.Some? then Found(true, m.value, start, close.value) else Found(false, m.value, start, openEnd))
  }

  /** The loop that looks for the closing line. */
  method FindCloser(isCloser: LineTest, isOpener: LineTest, t: Str, first: nat) returns (r: Option<nat>)
    requires first <= |t| + 1
    ensures r == CloseFrom(isCloser, isOpener, t, first)
  {
    var p := first;
    while p <= |t|
      invariant p <= |t| + 1
      invariant CloseFrom(isCloser, isOpener, t, p) == CloseFrom(isCloser, isOpener, t, first)
      decreases |t| + 1 - p
    {
      var line := t[p..LineEnd(t, p)];
      if isCloser(line) { return Some(p + RunStart(line, |line|, IsBlank)); }
      if isOpener(line) { return None; }
      p := NextBreak(t, p) + 1;
    }
    r := None;
  }

  method FindResultAfter(rx: Patterns, t: Str, taskEnd: nat) returns (r: Option<Found>)
    requires taskEnd <= |t|
    ensures r == ResultAfter(rx, t, taskEnd)
  {
    var nl := NextBreak(t, taskEnd);
    if nl == |t| { return None; }
    var ls, le := nl + 1, LineEnd(t, nl + 1);
    var line := t[ls..le];
    var m := rx.read(line);
    if m.None? { return None; }
    var start, openEnd := ls + RunEnd(line, 0, IsBlank), ls + RunStart(line, |line|, IsBlank);
    if m.value.isRun { return Some(Found(false, m.value, start, openEnd)); }
    var close := FindCloser(rx.isCloser, rx.isOpener, t, le + 1);
    r := Some(if close.Some? then Found(true, m.value, start, close.value) else Found(false, m.value, start, openEnd));
  }

  // ----- escaping ------------------------------------------------------------------------------------------

  lemma {:induction false} EscapeStep(s: Str, i: nat)
    requires i < |s| && Escape(s, i)[0] != AMPERSAND
    ensures Escape(s, i) == [s[i]] + Escape(s, i + 1)
  {
  }

  /** Up to its first ampersand the escaped text is the text itself. */
  lemma {:induction false} EscapeAgrees(s: Str, i: nat, n: nat, out: Str)
    requires i <= |s| && out == Escape(s, i) && n <= |out| && forall k :: 0 <= k < n ==> out[k] != AMPERSAND
    ensures i + n <= |s| && forall k :: 0 <= k < n ==> out[k] == s[i + k]
    decreases n
  {
    if n > 0 {
      var rest := Escape(s, i + 1);
      EscapeStep(s, i);
      forall k | 0 <= k < n - 1 ensures rest[k] == out[k + 1] && rest[k] != AMPERSAND {}
      EscapeAgrees(s, i + 1, n - 1, rest);
      forall k | 0 <= k < n ensures out[k] == s[i + k] {
        if k > 0 { assert rest[k - 1] == s[i + 1 + (k - 1)]; }
      }
    }
  }

  /** Where unit k of the escaped text comes from. */
  lemma {:induction false} EscapeOrigin(s: Str, i: nat, k: nat) returns (j: nat)
    requires i <= |s| && k < |Escape(s, i)| && Escape(s, i)[k] == LESS
    ensures i <= j < |s| && !MarkerAt(s, j) && Escape(s, i)[k..] == Escape(s, j)
    decreases |s| - i
  {
    if MarkerAt(s, i) {
      assert Escape(s, i) == LT_ENTITY + Escape(s, i + 1);
      assert Escape(s, i)[k..] == Escape(s, i + 1)[k - 4..];
      j := EscapeOrigin(s, i + 1, k - 4);
    } else if k == 0 {
      j := i;
    } else {
      assert Escape(s, i) == [s[i]] + Escape(s, i + 1);
      assert Escape(s, i)[k..] == Escape(s, i + 1)[k - 1..];
      j := EscapeOrigin(s, i + 1, k - 1);
    }
  }

  /** After escaping there is no marker left, whatever the text was. */
  lemma {:induction false} EscapeLeavesNone(s: Str)
    ensures !HasMarker(Escape(s, 0))
  {
    var out := Escape(s, 0);
    forall k | 0 <= k < |out| ensures !MarkerAt(out, k) {
      if MarkerAt(out, k) {
        var j := EscapeOrigin(s, 0, k);
        NoMarkerEscaped(s, j);
      }
    }
  }

  /** What was no marker does not become one. */
  lemma {:induction false} NoMarkerEscaped(s: Str, j: nat)
    requires j <= |s| && !MarkerAt(s, j)
    ensures !MarkerHere(Escape(s, j))
  {
    var out := Escape(s, j);
    if MarkerHere(out) {
      var n := NameIndex(out) + 8;
      forall u | 0 <= u < n ensures n <= |out| && out[u] != AMPERSAND { MarkerUnits(out, u); }
      EscapeAgrees(s, j, n, out);
      assert out[..n] == s[j..][..n];
      MarkerAgree(out, s[j..], n);
    }
  }

  // ----- no line of the result ends the block --------------------------------------------------------------

  /** A line whose comment starts with the marker name, with a slash or without, holds a marker. */
  lemma {:induction false} NamedComment(line: Str)
    requires AfterOpen(line).Some?
    requires var r := AfterOpen(line).value;
      (|r| >= 8 && r[..8] == MD_MEMO) || (|r| >= 9 && r[0] == SLASH && r[1..9] == MD_MEMO)
    ensures HasMarker(line)
  {
    var i, r := RunEnd(line, 0, IsBlank), AfterOpen(line).value;
    NamedHere(line[i..], r);
    assert MarkerAt(line, i);
  }

  lemma {:induction false} NamedHere(x: Str, r: Str)
    requires OpensAt(x, 0) && r == x[RunEnd(x, 4, IsSpace)..]
    requires (|r| >= 8 && r[..8] == MD_MEMO) || (|r| >= 9 && r[0] == SLASH && r[1..9] == MD_MEMO)
    ensures MarkerHere(x)
  {
    var k := RunEnd(x, 4, IsSpace);
    if |r| >= 8 && r[..8] == MD_MEMO {
      assert r[..8][0] == x[k];
      SliceOfSlice(x, k, |x|, 0, 8);
    } else {
      SliceOfSlice(x, k, |x|, 1, 9);
    }
  }

  /** A closing line holds a marker, and so does the opener of another. */
  lemma {:induction false} CloserHasMarker(line: Str)
    requires IsCloser(line) || IsAnyOpener(line)
    ensures HasMarker(line)
  {
    var r := AfterOpen(line).value;
    if IsCloser(line) {
      var name := [SLASH] + (MD_MEMO + RES);
      assert r[..12][0] == name[0];
      SliceOfSlice(r, 0, 12, 1, 9);
      assert name[1..9] == MD_MEMO;
    } else {
      SliceOfSlice(r, 0, 11, 0, 8);
      assert (MD_MEMO + RUN)[0..8] == MD_MEMO && (MD_MEMO + RES)[0..8] == MD_MEMO;
    }
    NamedComment(line);
  }

  /** Lines cut out of a text without markers are neither. */
  lemma {:induction false} QuietLine(s: Str, a: nat, b: nat)
    requires a <= b <= |s| && !HasMarker(s)
    ensures !IsCloser(s[a..b]) && !IsAnyOpener(s[a..b])
  {
    var line := s[a..b];
    if IsCloser(line) || IsAnyOpener(line) {
      CloserHasMarker(line);
      MarkerInSlice(s, a, b);
    }
  }

  // ----- the opening line ----------------------------------------------------------------------------------

  /** A key, an equals sign, a value. */
  predicate KeyValue(w: Str) {
    var key := RunEnd(w, 0, WordUnit);
    0 < key < |w| - 1 && w[key] == EQUALS && RunEnd(w, key + 1, WordUnit) == |w|
  }

  predicate AllKeyValue(words: seq<Str>) {
    forall k :: 0 <= k < |words| ==> KeyValue(words[k])
  }

  /** A part of one class, and then something the class does not hold. */
  lemma {:induction false} RunOver(part: Str, rest: Str, p: CodeUnit -> bool)
    requires (forall k :: 0 <= k < |part| ==> p(part[k])) && (rest != [] ==> !p(rest[0]))
    ensures RunEnd(part + rest, 0, p) == |part| && (part + rest)[|part|..] == rest && (part + rest)[..|part|] == part
  {
    var s := part + rest;
    assert forall k :: 0 <= k < |part| ==> s[k] == part[k];
    assert rest != [] ==> s[|part|] == rest[0];
    RunEndIs(s, 0, |part|, p);
  }

  lemma {:induction false} CloseIsEnd()
    ensures IsEnd(CLOSE)
  {
    RunOver([SPACE], [DASH, DASH, GREATER], IsSpace);
    assert CLOSE == [SPACE] + [DASH, DASH, GREATER];
  }

  /** A text that does not start with white space or a dash is no end of a marker, with or without a space before it. */
  lemma {:induction false} NotAnEnd(s: Str)
    requires s != [] && !IsSpace(s[0]) && s[0] != DASH
    ensures !IsEnd(s) && !IsEnd([SPACE] + s)
  {
    RunOver([], s, IsSpace);
    RunOver([SPACE], s, IsSpace);
    assert [] + s == s;
  }

  lemma {:induction false} RestStarts(words: seq<Str>)
    ensures AttrText(words) + CLOSE != [] && (AttrText(words) + CLOSE)[0] == SPACE
  {
  }

  /** Reading the attributes of a well-formed opener takes them all; a word of another form stops it there. */
  lemma {:induction false} AttrsRead(words: seq<Str>) returns (n: nat, tail: Str)
    requires forall k :: 0 <= k < |words| ==> AttrWord(words[k])
    ensures var s := AttrText(words) + CLOSE;
      n == AttrsLength(s) && tail == s[n..] && |s| == n + |tail|
    ensures AllKeyValue(words) ==> tail == CLOSE
    ensures !AllKeyValue(words) ==> !IsEnd(tail)
  {
    var s := AttrText(words) + CLOSE;
    if words == [] {
      NoAttrs();
      n, tail := 0, CLOSE;
    } else {
      assert AttrWord(words[0]);
      RestStarts(words[1..]);
      AttrTextCons(words);
      AllKeyValueCons(words);
      if KeyValue(words[0]) {
        var m;
        m, tail := AttrsRead(words[1..]);
        n := 1 + |words[0]| + m;
        WordRead(words[0], AttrText(words[1..]) + CLOSE);
        DropWord(words[0], AttrText(words[1..]) + CLOSE, m);
      } else {
        n := AttrsLength(s);
        tail := s[n..];
        WordNotRead(words[0], AttrText(words[1..]) + CLOSE);
      }
    }
  }

  lemma {:induction false} AttrTextCons(words: seq<Str>)
    requires words != []
    ensures AttrText(words) + CLOSE == [SPACE] + (words[0] + (AttrText(words[1..]) + CLOSE))
  {
    Associate([SPACE], words[0] + AttrText(words[1..]), CLOSE);
    Associate(words[0], AttrText(words[1..]), CLOSE);
  }

  lemma {:induction false} AllKeyValueCons(words: seq<Str>)
    requires words != []
    ensures AllKeyValue(words) <==> KeyValue(words[0]) && AllKeyValue(words[1..])
  {
    if KeyValue(words[0]) && AllKeyValue(words[1..]) {
      forall k | 0 <= k < |words| ensures KeyValue(words[k]) {
        if k > 0 { assert KeyValue(words[1..][k - 1]); }
      }
    }
    if AllKeyValue(words) {
      forall k | 0 <= k < |words[1..]| ensures KeyValue(words[1..][k]) { assert KeyValue(words[k + 1]); }
    }
  }

  lemma {:induction false} NoAttrs()
    ensures AttrText([]) + CLOSE == CLOSE && AttrsLength(CLOSE) == 0 && CLOSE[0..] == CLOSE && IsEnd(CLOSE)
  {
    CloseIsEnd();
    RunOver([SPACE], [DASH, DASH, GREATER], IsSpace);
    assert CLOSE == [SPACE] + [DASH, DASH, GREATER];
  }

  /** The first key, the unit after it, and the value, of a word behind a space. */
  lemma {:induction false} WordParts(w: Str, rest: Str)
    requires AttrWord(w) && rest != [] && rest[0] == SPACE
    ensures var s := [SPACE] + (w + rest);
      var key := RunEnd(w, 0, WordUnit);
      && RunEnd(s, 0, IsSpace) == 1 && RunEnd(s, 1, WordUnit) == 1 + key
      && (key < |w| ==>
        s[1 + key] == w[key] == EQUALS && RunEnd(s, key + 2, WordUnit) == 1 + RunEnd(w, key + 1, WordUnit))
      && (key == |w| ==> s[1 + key] == SPACE)
  {
    var s := [SPACE] + (w + rest);
    RunOver([SPACE], w + rest, IsSpace);
    var key := RunEnd(w, 0, WordUnit);
    RunInside(w, rest, 0, WordUnit);
    RunEndShift(s, 1, 0, WordUnit);
    if key < |w| {
      RunInside(w, rest, key + 1, WordUnit);
      RunEndShift(s, 1, key + 1, WordUnit);
    }
  }

  /** A run that starts inside a part and that the next part does not continue. */
  lemma {:induction false} RunInside(w: Str, rest: Str, k: nat, p: CodeUnit -> bool)
    requires k <= |w| && (rest != [] ==> !p(rest[0]))
    ensures RunEnd(w + rest, k, p) == RunEnd(w, k, p)
    decreases |w| - k
  {
    if k < |w| && p(w[k]) { RunInside(w, rest, k + 1, p); }
  }

  lemma {:induction false} WordRead(w: Str, rest: Str)
    requires AttrWord(w) && KeyValue(w) && rest != [] && rest[0] == SPACE
    ensures AttrsLength([SPACE] + (w + rest)) == 1 + |w| + AttrsLength(rest)
  {
    var s, v := [SPACE] + (w + rest), 1 + |w|;
    assert RunEnd(s, 0, IsSpace) == 1 by { WordParts(w, rest); }
    var key := RunEnd(s, 1, WordUnit);
    assert 1 < key < |s| && s[key] == EQUALS && RunEnd(s, key + 1, WordUnit) == v && key + 1 < v by {
      WordParts(w, rest);
    }
    assert s[v..] == rest by { DropWord(w, rest, 0); assert rest[0..] == rest; }
  }

  lemma {:induction false} DropWord(w: Str, rest: Str, n: nat)
    requires n <= |rest|
    ensures ([SPACE] + (w + rest))[1 + |w| + n..] == rest[n..]
  {
  }

  /** Reading stops before a word that is no key=value, or inside it, and neither is the end of the marker. */
  lemma {:induction false} WordNotRead(w: Str, rest: Str)
    requires AttrWord(w) && !KeyValue(w) && rest != [] && rest[0] == SPACE
    ensures var s := [SPACE] + (w + rest); !IsEnd(s[AttrsLength(s)..])
  {
    var s := [SPACE] + (w + rest);
    var key := RunEnd(w, 0, WordUnit);
    WordParts(w, rest);
    if 0 < key < |w| && RunEnd(w, key + 1, WordUnit) > key + 1 {
      var v := RunEnd(w, key + 1, WordUnit);
      assert s[1 + v] == w[v] == EQUALS;
      StopsAtEquals(s[1 + v..]);
      assert AttrsLength(s) == 1 + v;
    } else {
      assert AttrsLength(s) == 0 && s[0..] == s;
      assert AttrUnit(w[0]);
      NotAnEnd(w + rest);
    }
  }

  lemma {:induction false} StopsAtEquals(left: Str)
    requires left != [] && left[0] == EQUALS
    ensures AttrsLength(left) == 0 && !IsEnd(left)
  {
    NotAnEnd(left);
  }

  /** The opening line reads back its id and attributes, when every attribute is a key=value word. */
  lemma {:induction false} OpenerRead(id: Str, words: seq<Str>)
    requires id != [] && (forall k :: 0 <= k < |id| ==> IdUnit(id[k]))
    requires forall k :: 0 <= k < |words| ==> AttrWord(words[k])
    ensures ReadIdAndAttrs([SPACE] + (id + (AttrText(words) + CLOSE)))
         == if AllKeyValue(words) then Option.Some((id, Trim(AttrText(words)))) else None
  {
    var y := AttrText(words) + CLOSE;
    var s := [SPACE] + (id + y);
    assert IdUnit(id[0]);
    RunOver([SPACE], id + y, IsSpace);
    RestStarts(words);
    RunOver(id, y, IdUnit);
    var n, tail := AttrsRead(words);
    if AllKeyValue(words) {
      CloseIsEnd();
      assert y[..n] == AttrText(words);
    }
  }

  lemma {:induction false} ThreeLetters(rest: Str)
    ensures StartsWith(MD_MEMO + (RES + rest), MD_MEMO + RES) && !StartsWith(MD_MEMO + (RES + rest), MD_MEMO + RUN)
    ensures (MD_MEMO + (RES + rest))[11..] == rest
  {
    var r := MD_MEMO + (RES + rest);
    assert r[..11] == MD_MEMO + RES;
    assert r[..11][9] == RES[1] && (MD_MEMO + RUN)[9] == RUN[1];
  }

  lemma {:induction false} OpenPrefix(rest: Str)
    requires rest != [] && !IsSpace(rest[0])
    ensures RunEnd(OPEN + rest, 0, IsBlank) == 0 && AfterOpen(OPEN + rest) == Option.Some(rest)
  {
    var x := OPEN + rest;
    assert x[5] == rest[0];
    RunEndIs(x, 0, 0, IsBlank);
    assert x[0..] == x;
    RunEndIs(x, 4, 5, IsSpace);
    assert x[5..] == rest;
  }

  lemma {:induction false} OpenerMarker(lowerId: Str, lowerAttrs: Str)
    ensures var words := AttrWords(lowerAttrs);
      ReadMarker(Opener(lowerId, lowerAttrs))
      == if AllKeyValue(words) then Option.Some(Marker(false, CleanId(lowerId), Trim(AttrText(words)))) else None
    ensures RunEnd(Opener(lowerId, lowerAttrs), 0, IsBlank) == 0
  {
    var id, words := CleanId(lowerId), AttrWords(lowerAttrs);
    var s := [SPACE] + (id + (AttrText(words) + CLOSE));
    OpenPrefix(MD_MEMO + (RES + s));
    ThreeLetters(s);
    OpenerRead(id, words);
  }

  lemma {:induction false} CloserCloses()
    ensures IsCloser(CLOSER) && |CLOSER| == 21 && CLOSER[20] == GREATER && NoBreak(CLOSER)
    ensures RunStart(CLOSER, 21, IsBlank) == 21
  {
    var name := [SLASH] + (MD_MEMO + (RES + CLOSE));
    OpenPrefix(name);
    assert name[..12] == [SLASH] + (MD_MEMO + RES) && name[12..] == CLOSE;
    CloseIsEnd();
  }

  // ----- the lines between ---------------------------------------------------------------------------------

  /** Lines that are neither closers nor openers are passed over. */
  lemma {:induction false} PassOver(isCloser: LineTest, isOpener: LineTest, t: Str, off: nat, body: Str, a: nat)
    requires off + |body| < |t| && t[off..off + |body|] == body && t[off + |body|] == LF && a <= |body|
    requires forall x, y :: 0 <= x <= y <= |body| ==> !isCloser(body[x..y]) && !isOpener(body[x..y])
    ensures CloseFrom(isCloser, isOpener, t, off + a) == CloseFrom(isCloser, isOpener, t, off + |body| + 1)
    decreases |body| - a
  {
    var p := off + a;
    var e := NextBreak(t, p);
    NoMarkerLine(isCloser, isOpener, t, off, body, a, p);
    PassLine(isCloser, isOpener, t, p);
    if e < off + |body| { PassOver(isCloser, isOpener, t, off, body, e + 1 - off); }
  }

  lemma {:induction false} PassLine(isCloser: LineTest, isOpener: LineTest, t: Str, p: nat)
    requires p <= |t| && !isCloser(t[p..LineEnd(t, p)]) && !isOpener(t[p..LineEnd(t, p)])
    ensures CloseFrom(isCloser, isOpener, t, p) == CloseFrom(isCloser, isOpener, t, NextBreak(t, p) + 1)
  {
  }

  /** A line of the body is neither. */
  lemma {:induction false} NoMarkerLine(isCloser: LineTest, isOpener: LineTest, t: Str, off: nat, body: Str, a: nat,
        p: nat)
    requires off + |body| < |t| && t[off..off + |body|] == body && t[off + |body|] == LF && a <= |body| && p == off + a
    requires forall x, y :: 0 <= x <= y <= |body| ==> !isCloser(body[x..y]) && !isOpener(body[x..y])
    ensures NextBreak(t, p) <= off + |body| && !isCloser(t[p..LineEnd(t, p)]) && !isOpener(t[p..LineEnd(t, p)])
  {
    var le := LineEnd(t, p);
    SliceOfSlice(t, off, off + |body|, a, le - off);
    assert t[p..le] == body[a..le - off];
  }

  lemma {:induction false} AttrTextNoBreak(words: seq<Str>)
    requires forall k :: 0 <= k < |words| ==> AttrWord(words[k])
    ensures NoBreak(AttrText(words))
  {
    if words != [] {
      assert AttrWord(words[0]);
      AttrTextNoBreak(words[1..]);
    }
  }

  lemma {:induction false} OpenerOneLine(lowerId: Str, lowerAttrs: Str)
    ensures var o := Opener(lowerId, lowerAttrs); NoBreak(o) && o != [] && o[|o| - 1] == GREATER
  {
    var id, attrs := CleanId(lowerId), AttrText(AttrWords(lowerAttrs));
    AttrTextNoBreak(AttrWords(lowerAttrs));
    var a := attrs + CLOSE;
    assert NoBreak(a) && a[|a| - 1] == GREATER;
    var b := id + a;
    assert NoBreak(b) && b[|b| - 1] == GREATER;
    var c := MD_MEMO + (RES + ([SPACE] + b));
    assert NoBreak(c) && c[|c| - 1] == GREATER;
  }

  /** A closing line as it is written: one line, nothing to trim, and the test recognises it. */
  ghost predicate ClosingLine(isCloser: LineTest, line: Str) {
    && isCloser(line) && NoBreak(line) && line != [] && line[|line| - 1] != CR &&
      RunStart(line, |line|, IsBlank) == |line|
  }

  ghost predicate Quiet(isCloser: LineTest, isOpener: LineTest, body: Str) {
    forall x, y :: 0 <= x <= y <= |body| ==> !isCloser(body[x..y]) && !isOpener(body[x..y])
  }

  lemma {:induction false} CloserAt(isCloser: LineTest, isOpener: LineTest, t: Str, p: nat, closer: Str, post: Str)
    requires p <= |t| && ClosingLine(isCloser, closer) && EndsLine(post) && t[p..] == closer + post
    ensures CloseFrom(isCloser, isOpener, t, p) == Option.Some(|t| - |post|)
  {
    LineIs(t, p, closer, post);
    assert |t[p..]| == |closer| + |post|;
  }

  /** From the line behind the opener on, the closing line of this very block is found. */
  lemma {:induction false} BlockCloses(isCloser: LineTest, isOpener: LineTest, t: Str, p: nat, body: Str, closer: Str,
        post: Str)
    requires p <= |t| && ClosingLine(isCloser, closer) && Quiet(isCloser, isOpener, body) && EndsLine(post)
    requires t[p..] == BlockTail(body, closer, post)
    ensures CloseFrom(isCloser, isOpener, t, p) == Option.Some(|t| - |post|)
  {
    if body == [] {
      CloserAt(isCloser, isOpener, t, p, closer, post);
    } else {
      BodyThenCloser(t, p, body, closer + post);
      PassOver(isCloser, isOpener, t, p, body, 0);
      CloserAt(isCloser, isOpener, t, p + |body| + 1, closer, post);
    }
  }

  /** What follows the opening line and its break. */
  function BlockTail(body: Str, closer: Str, post: Str): Str {
    if body == [] then closer + post else body + ([LF] + (closer + post))
  }

  lemma {:induction false} BodyThenCloser(t: Str, p: nat, body: Str, rest: Str)
    requires p <= |t| && t[p..] == body + ([LF] + rest)
    ensures p + |body| < |t| && t[p..p + |body|] == body && t[p + |body|] == LF && t[p + |body| + 1..] == rest
  {
    var x := t[p..];
    assert x[..|body|] == body && x[|body|] == LF && x[|body| + 1..] == rest;
  }

  /** The finder, once the line under the task is known to be o and the block's end is known. */
  lemma {:induction false} FindsBlock(rx: Patterns, t: Str, taskEnd: nat, ls: nat, o: Str, m: Option<Marker>,
        close: nat)
    requires taskEnd <= |t| && NextBreak(t, taskEnd) + 1 == ls <= |t|
    requires LineEnd(t, ls) == ls + |o| < |t| && t[ls..ls + |o|] == o && RunEnd(o, 0, IsBlank) == 0
    requires rx.read(o) == m && (m.Some? ==> !m.value.isRun)
    requires CloseFrom(rx.isCloser, rx.isOpener, t, ls + |o| + 1) == Option.Some(close)
    ensures ResultAfter(rx, t, taskEnd) == if m.Some? then Option.Some(Found(true, m.value, ls, close)) else None
  {
  }

  lemma {:induction false} TaskLine(pre: Str, taskEnd: nat, rest: Str)
    requires taskEnd <= |pre| && forall k :: taskEnd <= k < |pre| ==> pre[k] != LF
    ensures NextBreak(pre + ([LF] + rest), taskEnd) == |pre|
    ensures (pre + ([LF] + rest))[|pre| + 1..] == rest
  {
    var t := pre + ([LF] + rest);
    assert t[|pre|] == LF;
    assert forall k :: 0 <= k < |pre| ==> t[k] == pre[k];
    BreakIs(t, taskEnd, |pre|);
  }

  lemma {:induction false} ResultIsQuiet(text: Str)
    ensures Quiet(IsCloser, IsAnyOpener, ResultBody(text))
  {
    var body := ResultBody(text);
    EscapeLeavesNone(Trim(Lf(text)));
    forall x, y | 0 <= x <= y <= |body| ensures !IsCloser(body[x..y]) && !IsAnyOpener(body[x..y]) {
      QuietLine(body, x, y);
    }
  }

  lemma {:induction false} BlockParts(o: Str, body: Str, closer: Str, post: Str)
    ensures Block(o, body, closer) + post == o + ([LF] + BlockTail(body, closer, post))
  {
    var tail := if body == [] then closer else body + ([LF] + closer);
    Associate(o, [LF] + tail, post);
    Associate([LF], tail, post);
    Associate(body, [LF] + closer, post);
    Associate([LF], closer, post);
  }

  lemma {:induction false} TailPlace(pre: Str, rest: Str, o: Str, tail: Str)
    requires rest == o + ([LF] + tail)
    ensures |pre + ([LF] + rest)| == |pre| + |o| + 2 + |tail|
    ensures (pre + ([LF] + rest))[|pre| + |o| + 2..] == tail
  {
    var t := pre + ([LF] + rest);
    assert t[|pre| + 1..] == rest && rest[|o| + 1..] == tail;
    DropDrop(t, |pre| + 1, |o| + 1);
  }

  /**
    Result round trip: a block written on the line under a task, for any id, result and attributes, is found
    from anywhere on the task's line as exactly that block, with the cleaned id and the attributes, if and only
    if every word of the attributes is a key=value word; otherwise nothing is found there.
   */
  lemma {:induction false} ResultRoundTrip(pre: Str, taskEnd: nat, lowerId: Str, text: Str, lowerAttrs: Str,
        post: Str, block: Str, note: Str)
    requires taskEnd <= |pre| && (forall k :: taskEnd <= k < |pre| ==> pre[k] != LF) && EndsLine(post)
    requires block == MakeResultBlock(lowerId, text, lowerAttrs) && note == pre + ([LF] + (block + post))
    ensures var words := AttrWords(lowerAttrs);
      ResultAfter(PATTERNS, note, taskEnd)
      == if AllKeyValue(words)
         then
           var marker := Marker(false, CleanId(lowerId), Trim(AttrText(words)));
           Option.Some(Found(true, marker, |pre| + 1, |pre| + 1 + |block|))
         else None
  {
    var words := AttrWords(lowerAttrs);
    var m := if AllKeyValue(words) then Option.Some(Marker(false, CleanId(lowerId), Trim(AttrText(words)))) else None;
    var r := if m.Some? then Option.Some(Found(true, m.value, |pre| + 1, |pre| + 1 + |block|)) else None;
    ResultFound(pre, taskEnd, lowerId, text, lowerAttrs, post, block, note, m, r);
  }

  /** The same, for what the opening line reads as. */
  lemma {:induction false} ResultFound(pre: Str, taskEnd: nat, lowerId: Str, text: Str, lowerAttrs: Str, post: Str,
        block: Str, note: Str, m: Option<Marker>, r: Option<Found>)
    requires taskEnd <= |pre| && (forall k :: taskEnd <= k < |pre| ==> pre[k] != LF) && EndsLine(post)
    requires block == MakeResultBlock(lowerId, text, lowerAttrs) && note == pre + ([LF] + (block + post))
    requires m == var words := AttrWords(lowerAttrs);
      if AllKeyValue(words) then Option.Some(Marker(false, CleanId(lowerId), Trim(AttrText(words)))) else None
    requires r == if m.Some? then Option.Some(Found(true, m.value, |pre| + 1, |pre| + 1 + |block|)) else None
    ensures ResultAfter(PATTERNS, note, taskEnd) == r
  {
    var o, body := Opener(lowerId, lowerAttrs), ResultBody(text);
    OpenerOneLine(lowerId, lowerAttrs);
    assert PATTERNS.read(o) == m && RunEnd(o, 0, IsBlank) == 0 by { OpenerMarker(lowerId, lowerAttrs); }
    assert ClosingLine(PATTERNS.isCloser, CLOSER) && Quiet(PATTERNS.isCloser, PATTERNS.isOpener, body) by {
      ResultIsQuiet(text);
      PatternsRead(o, body);
    }
    FindsPlaced(PATTERNS, pre, taskEnd, o, m, body, CLOSER, post, block, note);
  }

  /** The finder, on a block put under a task line. */
  lemma {:induction false} FindsPlaced(rx: Patterns, pre: Str, taskEnd: nat, o: Str, m: Option<Marker>, body: Str,
        closer: Str, post: Str, block: Str, t: Str)
    requires taskEnd <= |pre| && (forall k :: taskEnd <= k < |pre| ==> pre[k] != LF) && EndsLine(post)
    requires NoBreak(o) && o != [] && o[|o| - 1] == GREATER && RunEnd(o, 0, IsBlank) == 0
    requires rx.read(o) == m && (m.Some? ==> !m.value.isRun)
    requires ClosingLine(rx.isCloser, closer) && Quiet(rx.isCloser, rx.isOpener, body)
    requires block == Block(o, body, closer) && t == pre + ([LF] + (block + post))
    ensures ResultAfter(rx, t, taskEnd)
      == if m.Some? then Option.Some(Found(true, m.value, |pre| + 1, |pre| + 1 + |block|)) else None
  {
    var rest, tail := block + post, BlockTail(body, closer, post);
    var p, close := |pre| + |o| + 2, |pre| + 1 + |block|;
    assert rest == o + ([LF] + tail) by { BlockParts(o, body, closer, post); }
    PlacedCloses(rx.isCloser, rx.isOpener, pre, rest, o, body, closer, tail, post, p, close, t);
    FindsUnder(rx, pre, taskEnd, rest, o, m, tail, p, close, t);
  }

  lemma {:induction false} PlacedCloses(isCloser: LineTest, isOpener: LineTest, pre: Str, rest: Str, o: Str,
        body: Str, closer: Str, tail: Str, post: Str, p: nat, close: nat, t: Str)
    requires ClosingLine(isCloser, closer) && Quiet(isCloser, isOpener, body) && EndsLine(post)
    requires rest == o + ([LF] + tail) && t == pre + ([LF] + rest) && tail == BlockTail(body, closer, post)
    requires p == |pre| + |o| + 2 && close + |post| == |pre| + 1 + |rest|
    ensures p <= |t| && CloseFrom(isCloser, isOpener, t, p) == Option.Some(close)
  {
    assert p <= |t| && t[p..] == tail && |t| == close + |post| by { TailPlace(pre, rest, o, tail); }
    BlockCloses(isCloser, isOpener, t, p, body, closer, post);
  }

  lemma {:induction false} FindsUnder(rx: Patterns, pre: Str, taskEnd: nat, rest: Str, o: Str, m: Option<Marker>,
        tail: Str, p: nat, close: nat, t: Str)
    requires taskEnd <= |pre| && (forall k :: taskEnd <= k < |pre| ==> pre[k] != LF)
    requires NoBreak(o) && o != [] && o[|o| - 1] == GREATER && RunEnd(o, 0, IsBlank) == 0
    requires rx.read(o) == m && (m.Some? ==> !m.value.isRun)
    requires rest == o + ([LF] + tail) && t == pre + ([LF] + rest)
    requires p == |pre| + |o| + 2 && CloseFrom(rx.isCloser, rx.isOpener, t, p) == Option.Some(close)
    ensures ResultAfter(rx, t, taskEnd) == if m.Some? then Option.Some(Found(true, m.value, |pre| + 1, close)) else None
  {
    LineUnder(t, pre, taskEnd, rest, o, tail);
    FindsBlock(rx, t, taskEnd, |pre| + 1, o, m, close);
  }

  lemma {:induction false} LineUnder(t: Str, pre: Str, taskEnd: nat, rest: Str, o: Str, tail: Str)
    requires taskEnd <= |pre| && forall k :: taskEnd <= k < |pre| ==> pre[k] != LF
    requires NoBreak(o) && o != [] && o[|o| - 1] == GREATER
    requires t == pre + ([LF] + rest) && rest == o + ([LF] + tail)
    ensures var ls := |pre| + 1;
      NextBreak(t, taskEnd) + 1 == ls && LineEnd(t, ls) == ls + |o| < |t| && t[ls..ls + |o|] == o
  {
    TaskLine(pre, taskEnd, rest);
    LineIs(t, |pre| + 1, o, [LF] + tail);
  }

  lemma {:induction false} PatternsRead(o: Str, body: Str)
    requires Quiet(IsCloser, IsAnyOpener, body)
    ensures PATTERNS.read(o) == ReadMarker(o)
    ensures ClosingLine(PATTERNS.isCloser, CLOSER) && Quiet(PATTERNS.isCloser, PATTERNS.isOpener, body)
  {
    CloserCloses();
  }
}
