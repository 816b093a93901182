/** The lines of result blocks, said as texts put together, and where a block ends. */
module MarkerForms {
  import opened Text
  import opened Markers
  import opened LineForms
  import opened ResultBlocks

  /** "md-memo:run" and "md-memo:res" */
  const RUN_NAME: Str := [0x6D, 0x64, 0x2D, 0x6D, 0x65, 0x6D, 0x6F, 0x3A, 0x72, 0x75, 0x6E]
  const RES_NAME: Str := [0x6D, 0x64, 0x2D, 0x6D, 0x65, 0x6D, 0x6F, 0x3A, 0x72, 0x65, 0x73]

  ghost predicate AllBlank(s: Str) {
    forall k :: 0 <= k < |s| ==> s[k] == 0x20 || s[k] == 0x09 || s[k] == 0x3000
  }

  predicate IdPart(c: CodeUnit) { 0x61 <= c <= 0x7A || 0x30 <= c <= 0x39 }

  predicate KeyPart(c: CodeUnit) { IdPart(c) || c == 0x5F }

  ghost predicate AllOf(s: Str, test: CodeUnit -> bool) {
    s != [] && forall k :: 0 <= k < |s| ==> test(s[k])
  }

  /** Blanks, "<!--", white space, and the rest. */
  ghost predicate Opened(line: Str, blanks: Str, space: Str, rest: Str) {
    && line == blanks + (OPENING + (space + rest)) && AllBlank(blanks) && AllSpace(space)
    && (rest != [] ==> !IsSpace(rest[0]))
  }

  /** White space, "-->", and blanks to the end of the line. */
  ghost predicate Ended(s: Str) {
    exists space, blanks :: AllSpace(space) && AllBlank(blanks) && s == space + (ARROW + blanks)
  }

  // ----- the pieces of the scanners ------------------------------------------------------------------------

  lemma {:induction false} SpaceRun(s: Str, space: Str, rest: Str)
    requires s == space + rest && AllSpace(space) && (rest != [] ==> !IsSpace(rest[0]))
    ensures RunEnd(s, 0, IsSpace) == |space| && SkipSpace(s) == rest
  {
    assert forall k :: 0 <= k < |space| ==> s[k] == space[k];
    assert rest != [] ==> s[|space|] == rest[0];
    RunEndIs(s, 0, |space|, IsSpace);
  }

  lemma {:induction false} OpenedIs(line: Str, blanks: Str, space: Str, rest: Str)
    requires Opened(line, blanks, space, rest)
    ensures AfterOpen(line) == Some(rest) && RunEnd(line, 0, IsBlank) == |blanks|
  {
    var x := OPENING + (space + rest);
    assert forall k :: 0 <= k < |blanks| ==> line[k] == blanks[k];
    assert line[|blanks|] == x[0] == LESS;
    RunEndIs(line, 0, |blanks|, IsBlank);
    assert line[|blanks|..] == x;
    SpaceBehind(x, space, rest);
  }

  lemma {:induction false} SpaceBehind(x: Str, space: Str, rest: Str)
    requires x == OPENING + (space + rest) && AllSpace(space) && (rest != [] ==> !IsSpace(rest[0]))
    ensures OpensAt(x, 0) && RunEnd(x, 4, IsSpace) == 4 + |space| && x[4 + |space|..] == rest
  {
    UnitsIn(x, 0, 4, OPENING);
    assert x[4..] == space + rest;
    assert forall k :: 4 <= k < 4 + |space| ==> x[k] == space[k - 4];
    assert rest != [] ==> x[4 + |space|] == rest[0];
    RunEndIs(x, 4, 4 + |space|, IsSpace);
  }

  lemma {:induction false} HasOpened(line: Str) returns (blanks: Str, space: Str, rest: Str)
    requires AfterOpen(line).Some?
    ensures Opened(line, blanks, space, rest) && rest == AfterOpen(line).value
  {
    var i := RunEnd(line, 0, IsBlank);
    var x := line[i..];
    var k := RunEnd(x, 4, IsSpace);
    blanks, space, rest := line[..i], x[4..k], x[k..];
    assert x == OPENING + (space + rest) by { OpeningCut(x, k); }
    assert line == blanks + x;
  }

  lemma {:induction false} OpeningCut(x: Str, k: nat)
    requires OpensAt(x, 0) && 4 <= k <= |x|
    ensures x == OPENING + (x[4..k] + x[k..])
  {
    CutAt(x, 4, k);
    assert x[..4] == OPENING && x == x[..4] + x[4..];
  }

  lemma {:induction false} EndedIs(s: Str)
    ensures IsEnd(s) <==> Ended(s)
  {
    if IsEnd(s) {
      var i := RunEnd(s, 0, IsSpace);
      var r := s[i..];
      assert r[..3] == ARROW && r == r[..3] + r[3..];
      assert s == s[..i] + r;
      assert AllSpace(s[..i]) && AllBlank(r[3..]);
    }
    if Ended(s) {
      var space, blanks :| AllSpace(space) && AllBlank(blanks) && s == space + (ARROW + blanks);
      EndFrom(s, space, blanks);
    }
  }

  lemma {:induction false} EndFrom(s: Str, space: Str, blanks: Str)
    requires AllSpace(space) && AllBlank(blanks) && s == space + (ARROW + blanks)
    ensures IsEnd(s)
  {
    var r := ARROW + blanks;
    SpaceRun(s, space, r);
    UnitsIn(r, 0, 3, ARROW);
    assert forall k :: 3 <= k < |r| ==> r[k] == blanks[k - 3];
    RunEndIs(r, 3, |r|, IsBlank);
  }

  // ----- whole lines ---------------------------------------------------------------------------------------

  /** The closing line of a block. */
  ghost predicate ClosingText(line: Str) {
    exists blanks, space, end :: Opened(line, blanks, space, [0x2F] + (RES_NAME + end)) && Ended(end)
  }

  lemma {:induction false} CloserIs(line: Str)
    ensures IsCloser(line) <==> ClosingText(line)
  {
    if IsCloser(line) { CloserHasText(line); }
    if ClosingText(line) {
      var blanks, space, end :| Opened(line, blanks, space, [0x2F] + (RES_NAME + end)) && Ended(end);
      CloserFrom(line, blanks, space, end);
    }
  }

  lemma {:induction false} CloserHasText(line: Str)
    requires IsCloser(line)
    ensures ClosingText(line)
  {
    var blanks, space, rest := HasOpened(line);
    NameBehind(rest, rest[12..]);
    EndedIs(rest[12..]);
    assert Opened(line, blanks, space, [0x2F] + (RES_NAME + rest[12..]));
  }

  lemma {:induction false} NameBehind(rest: Str, end: Str)
    requires StartsWith(rest, [SLASH] + (MD_MEMO + RES)) && |rest| >= 12 && end == rest[12..]
    ensures rest == [0x2F] + (RES_NAME + end)
  {
    var name := [SLASH] + (MD_MEMO + RES);
    assert name == [0x2F] + RES_NAME;
    assert rest[..12] == name && rest == rest[..12] + end;
    Associate([0x2F], RES_NAME, end);
  }

  lemma {:induction false} CloserFrom(line: Str, blanks: Str, space: Str, end: Str)
    requires Opened(line, blanks, space, [0x2F] + (RES_NAME + end)) && Ended(end)
    ensures IsCloser(line)
  {
    var name, rest := [SLASH] + (MD_MEMO + RES), [0x2F] + (RES_NAME + end);
    OpenedIs(line, blanks, space, rest);
    Associate([0x2F], RES_NAME, end);
    assert name == [0x2F] + RES_NAME;
    assert rest[..12] == name && rest[12..] == end;
    EndedIs(end);
  }

  /** The start of any opening line. */
  ghost predicate OpeningText(line: Str) {
    exists blanks, space, name, rest :: OpeningParts(line, blanks, space, name, rest)
  }

  ghost predicate OpeningParts(line: Str, blanks: Str, space: Str, name: Str, rest: Str) {
    && (name == RUN_NAME || name == RES_NAME) && rest != [] && IsSpace(rest[0])
    && Opened(line, blanks, space, name + rest)
  }

  lemma {:induction false} AnyOpenerIs(line: Str)
    ensures IsAnyOpener(line) <==> OpeningText(line)
  {
    if IsAnyOpener(line) { OpenerHasText(line); }
    if OpeningText(line) {
      var blanks, space, name, rest :| OpeningParts(line, blanks, space, name, rest);
      OpenerFrom(line, blanks, space, name, rest);
    }
  }

  lemma {:induction false} NamesAre()
    ensures MD_MEMO + RUN == RUN_NAME && MD_MEMO + RES == RES_NAME
  {
  }

  lemma {:induction false} OpenerHasText(line: Str)
    requires IsAnyOpener(line)
    ensures OpeningText(line)
  {
    NamesAre();
    var blanks, space, r := HasOpened(line);
    var name, rest := r[..11], r[11..];
    assert r == name + rest && rest[0] == r[11];
    assert OpeningParts(line, blanks, space, name, rest);
  }

  lemma {:induction false} OpenerFrom(line: Str, blanks: Str, space: Str, name: Str, rest: Str)
    requires OpeningParts(line, blanks, space, name, rest)
    ensures IsAnyOpener(line)
  {
    NamesAre();
    OpenedIs(line, blanks, space, name + rest);
    assert (name + rest)[..11] == name && (name + rest)[11] == rest[0];
  }

  /** " key=value" words, each with white space before it. */
  ghost predicate Attributes(s: Str)
    decreases |s|
  {
    s == [] || exists space, key, value, rest :: AttributeThen(s, space, key, value, rest) && Attributes(rest)
  }

  ghost predicate AttributeThen(s: Str, space: Str, key: Str, value: Str, rest: Str) {
    && space != [] && AllSpace(space) && AllOf(key, KeyPart) && AllOf(value, KeyPart) && |rest| < |s|
    && s == space + (key + ([0x3D] + (value + rest))) && (rest != [] ==> !KeyPart(rest[0]))
  }

  lemma {:induction false} PartRun(part: Str, rest: Str, test: CodeUnit -> bool, s: Str)
    requires s == part + rest && (forall k :: 0 <= k < |part| ==> test(part[k])) && (rest != [] ==> !test(rest[0]))
    ensures RunEnd(s, 0, test) == |part| && s[|part|..] == rest
  {
    forall k | 0 <= k < |part| ensures test(s[k]) { assert s[k] == part[k]; }
    assert rest != [] ==> s[|part|] == rest[0];
    RunEndIs(s, 0, |part|, test);
  }

  /** One word further. */
  lemma {:induction false} WordRead(s: Str, space: Str, key: Str, value: Str, tail: Str)
    requires s == space + (key + ([0x3D] + (value + tail))) && space != [] && AllSpace(space)
    requires AllOf(key, KeyPart) && AllOf(value, KeyPart) && (tail != [] ==> !KeyPart(tail[0]))
    ensures AttrsLength(s) == |space| + |key| + 1 + |value| + AttrsLength(tail)
  {
    var w, k, v := |space|, |space| + |key|, |space| + |key| + 1 + |value|;
    assert v <= |s| && RunEnd(s, 0, IsSpace) == w && RunEnd(s, w, WordUnit) == k && s[k] == EQUALS
      && RunEnd(s, k + 1, WordUnit) == v && s[v..] == tail by {
      WordBounds(s, space, key, value, tail);
    }
    WordFrom(s, w, k, v);
  }

  lemma {:induction false} WordFrom(s: Str, w: nat, k: nat, v: nat)
    requires w == RunEnd(s, 0, IsSpace) && w > 0 && k == RunEnd(s, w, WordUnit) && w < k < |s| && s[k] == EQUALS
    requires v == RunEnd(s, k + 1, WordUnit) && v > k + 1
    ensures AttrsLength(s) == v + AttrsLength(s[v..])
  {
  }

  lemma {:induction false} WordBounds(s: Str, space: Str, key: Str, value: Str, tail: Str)
    requires s == space + (key + ([0x3D] + (value + tail))) && space != [] && AllSpace(space)
    requires AllOf(key, KeyPart) && AllOf(value, KeyPart) && (tail != [] ==> !KeyPart(tail[0]))
    ensures var w, k, v := |space|, |space| + |key|, |space| + |key| + 1 + |value|;
      && v <= |s| && RunEnd(s, 0, IsSpace) == w && RunEnd(s, w, WordUnit) == k && k < |s| && s[k] == EQUALS
      && RunEnd(s, k + 1, WordUnit) == v && s[v..] == tail
  {
    var t3 := value + tail;
    var t2 := [0x3D] + t3;
    BoundsOf(s, space, key, value, tail, key + t2, t2, t3, |space|, |space| + |key|);
  }

  lemma {:induction false} BoundsOf(s: Str, space: Str, key: Str, value: Str, tail: Str, t1: Str, t2: Str, t3: Str,
        w: nat, k: nat)
    requires s == space + t1 && t1 == key + t2 && t2 == [0x3D] + t3 && t3 == value + tail
    requires AllSpace(space) && AllOf(key, KeyPart) && AllOf(value, KeyPart)
    requires (tail != [] ==> !KeyPart(tail[0])) && w == |space| && k == w + |key|
    ensures RunEnd(s, 0, IsSpace) == w && RunEnd(s, w, WordUnit) == k && k < |s| && s[k] == EQUALS
    ensures var v := k + 1 + |value|; v <= |s| && RunEnd(s, k + 1, WordUnit) == v && s[v..] == tail
  {
    TailOf(s, space, t1);
    WordTails(s, w, k, key, t1, t2, t3);
    KeyBounds(s, w, k, space, key, t1, t2);
    ValueBounds(s, k + 1, value, tail);
  }

  lemma {:induction false} TailOf(s: Str, a: Str, b: Str)
    requires s == a + b
    ensures s[|a|..] == b
  {
  }

  lemma {:induction false} KeyBounds(s: Str, w: nat, k: nat, space: Str, key: Str, t1: Str, t2: Str)
    requires s == space + t1 && AllSpace(space) && t1 == key + t2 && AllOf(key, KeyPart) && t2 != [] && t2[0] == EQUALS
    requires w == |space| && k == w + |key| && s[w..] == t1
    ensures RunEnd(s, 0, IsSpace) == w && RunEnd(s, w, WordUnit) == k
  {
    assert t1[0] == key[0] && s[0..] == s;
    RunBehind(s, 0, space, t1, IsSpace);
    RunBehind(s, w, key, t2, WordUnit);
  }

  lemma {:induction false} ValueBounds(s: Str, i: nat, value: Str, tail: Str)
    requires i <= |s| && s[i..] == value + tail && AllOf(value, KeyPart) && (tail != [] ==> !KeyPart(tail[0]))
    ensures i + |value| <= |s| && RunEnd(s, i, WordUnit) == i + |value| && s[i + |value|..] == tail
  {
    RunBehind(s, i, value, tail, WordUnit);
    DropDrop(s, i, |value|);
  }

  lemma {:induction false} WordTails(s: Str, w: nat, k: nat, key: Str, t1: Str, t2: Str, t3: Str)
    requires w <= |s| && s[w..] == t1 && t1 == key + t2 && t2 == [0x3D] + t3 && k == w + |key|
    ensures k < |s| && s[k..] == t2 && s[k + 1..] == t3 && s[k] == EQUALS
  {
    DropDrop(s, w, |key|);
    DropDrop(s, k, 1);
    assert s[k] == s[k..][0];
  }

  lemma {:induction false} RunBehind(s: Str, i: nat, part: Str, rest: Str, test: CodeUnit -> bool)
    requires i <= |s| && s[i..] == part + rest && (forall k :: 0 <= k < |part| ==> test(part[k]))
    requires rest != [] ==> !test(rest[0])
    ensures i + |part| <= |s| && RunEnd(s, i, test) == i + |part|
  {
    var x := s[i..];
    forall k | i <= k < i + |part| ensures test(s[k]) { assert s[k] == x[k - i] == part[k - i]; }
    assert rest != [] ==> s[i + |part|] == x[|part|] == rest[0];
    RunEndIs(s, i, i + |part|, test);
  }

  lemma {:induction false} EndHasNoWord(end: Str)
    requires Ended(end)
    ensures AttrsLength(end) == 0 && end != [] && !KeyPart(end[0])
  {
    var space, blanks :| AllSpace(space) && AllBlank(blanks) && end == space + (ARROW + blanks);
    var r := ARROW + blanks;
    SpaceRun(end, space, r);
    assert end[|space|] == r[0] == DASH;
  }

  /** The words are read to their end. */
  lemma {:induction false} AttributesRead(attrs: Str, end: Str)
    requires Attributes(attrs) && Ended(end)
    ensures AttrsLength(attrs + end) == |attrs|
    decreases |attrs|
  {
    EndHasNoWord(end);
    if attrs == [] {
      assert attrs + end == end;
    } else {
      var space, key, value, rest :| AttributeThen(attrs, space, key, value, rest) && Attributes(rest);
      AttributesRead(rest, end);
      AttributeAndEnd(attrs, space, key, value, rest, end);
      assert rest + end != [] ==> !KeyPart((rest + end)[0]);
      WordRead(attrs + end, space, key, value, rest + end);
    }
  }

  lemma {:induction false} AttributeAndEnd(attrs: Str, space: Str, key: Str, value: Str, rest: Str, end: Str)
    requires attrs == space + (key + ([0x3D] + (value + rest)))
    ensures attrs + end == space + (key + ([0x3D] + (value + (rest + end))))
    ensures |attrs| == |space| + |key| + 1 + |value| + |rest|
  {
    Associate(space, key + ([0x3D] + (value + rest)), end);
    Associate(key, [0x3D] + (value + rest), end);
    Associate([0x3D], value + rest, end);
    Associate(value, rest, end);
  }

  /** What is read are words. */
  lemma {:induction false} ReadAttributes(s: Str)
    ensures Attributes(s[..AttrsLength(s)])
    decreases |s|
  {
    var n := AttrsLength(s);
    if n > 0 {
      var w := RunEnd(s, 0, IsSpace);
      var k := RunEnd(s, w, WordUnit);
      assert k < |s|;
      var v := RunEnd(s, k + 1, WordUnit);
      WordUnfold(s, w, k, v);
      WordFrom(s, w, k, v);
      ReadAttributes(s[v..]);
      FirstWord(s, w, k, v, n);
    }
  }

  lemma {:induction false} WordUnfold(s: Str, w: nat, k: nat, v: nat)
    requires AttrsLength(s) > 0 && w == RunEnd(s, 0, IsSpace) && k == RunEnd(s, w, WordUnit) && k < |s|
    requires v == RunEnd(s, k + 1, WordUnit)
    ensures w > 0 && k > w && s[k] == EQUALS && v > k + 1
  {
  }

  lemma {:induction false} FirstWord(s: Str, w: nat, k: nat, v: nat, n: nat)
    requires w == RunEnd(s, 0, IsSpace) && k == RunEnd(s, w, WordUnit) && w > 0 && k > w && k < |s| && s[k] == EQUALS
    requires v == RunEnd(s, k + 1, WordUnit) && v > k + 1 && n == v + AttrsLength(s[v..])
    requires Attributes(s[v..][..n - v])
    ensures Attributes(s[..n])
  {
    var attrs, rest := s[..n], s[v..][..n - v];
    WordCut(s, w, k, v, n, attrs, rest);
    WordClasses(s, w, k, v);
    assert rest != [] ==> rest[0] == s[v];
    assert AttributeThen(attrs, s[..w], s[w..k], s[k + 1..v], rest);
  }

  lemma {:induction false} WordClasses(s: Str, w: nat, k: nat, v: nat)
    requires w == RunEnd(s, 0, IsSpace) && k == RunEnd(s, w, WordUnit) && w < k < |s|
    requires v == RunEnd(s, k + 1, WordUnit) && v > k + 1
    ensures AllOf(s[w..k], KeyPart) && AllOf(s[k + 1..v], KeyPart) && AllSpace(s[..w]) && (v < |s| ==> !KeyPart(s[v]))
  {
  }

  lemma {:induction false} WordCut(s: Str, w: nat, k: nat, v: nat, n: nat, attrs: Str, rest: Str)
    requires w <= k < v <= n <= |s| && k + 1 <= v && s[k] == EQUALS && attrs == s[..n] && rest == s[v..][..n - v]
    ensures attrs == s[..w] + (s[w..k] + ([0x3D] + (s[k + 1..v] + rest))) && |rest| == n - v
  {
    var t1, t2, t3 := s[w..n], s[k..n], s[k + 1..n];
    assert rest == s[v..n];
    assert t3 == s[k + 1..v] + rest by { SliceJoin(s, k + 1, v, n); }
    assert t2 == [0x3D] + t3;
    assert t1 == s[w..k] + t2 by { SliceJoin(s, w, k, n); }
    assert attrs == s[..w] + t1;
  }

  /** A whole marker line: what kind it is, its id and its words. */
  ghost predicate MarkerLine(line: Str, isRun: bool, id: Str, attrs: Str) {
    AllOf(id, IdPart) && Attributes(attrs) &&
    exists blanks, space, gap, end :: MarkerParts(line, isRun, id, attrs, blanks, space, gap, end)
  }

  ghost predicate MarkerParts(line: Str, isRun: bool, id: Str, attrs: Str, blanks: Str, space: Str, gap: Str,
        end: Str)
  {
    && gap != [] && AllSpace(gap) && Ended(end)
    && Opened(line, blanks, space, (if isRun then RUN_NAME else RES_NAME) + (gap + (id + (attrs + end))))
  }

  lemma {:induction false} IdAndAttrs(s: Str, gap: Str, id: Str, attrs: Str, end: Str)
    requires s == gap + (id + (attrs + end)) && gap != [] && AllSpace(gap) && AllOf(id, IdPart) && Attributes(attrs)
    requires Ended(end)
    ensures ReadIdAndAttrs(s) == Some((id, Trim(attrs)))
  {
    var y := attrs + end;
    EndHasNoWord(end);
    AttributesStart(attrs);
    assert y[0] == if attrs == [] then end[0] else attrs[0];
    SpaceRun(s, gap, id + y);
    PartRun(id, y, IdUnit, id + y);
    assert (id + y)[..|id|] == id;
    AttributesRead(attrs, end);
    assert y[..|attrs|] == attrs && y[|attrs|..] == end;
    EndedIs(end);
  }

  lemma {:induction false} AttributesStart(attrs: Str)
    requires Attributes(attrs)
    ensures attrs != [] ==> IsSpace(attrs[0])
  {
    if attrs != [] {
      var space, key, value, rest :| AttributeThen(attrs, space, key, value, rest) && Attributes(rest);
      assert attrs[0] == space[0];
    }
  }

  lemma {:induction false} MarkerLineReads(line: Str, isRun: bool, id: Str, attrs: Str)
    requires MarkerLine(line, isRun, id, attrs)
    ensures ReadMarker(line) == Some(Marker(isRun, id, Trim(attrs)))
  {
    var blanks, space, gap, end :| MarkerParts(line, isRun, id, attrs, blanks, space, gap, end);
    var name, tail := if isRun then RUN_NAME else RES_NAME, gap + (id + (attrs + end));
    OpenedIs(line, blanks, space, name + tail);
    NameIs(name, tail, isRun);
    IdAndAttrs(tail, gap, id, attrs, end);
  }

  lemma {:induction false} NameIs(name: Str, tail: Str, isRun: bool)
    requires name == if isRun then RUN_NAME else RES_NAME
    ensures var r := name + tail;
      && r[11..] == tail && StartsWith(r, MD_MEMO + RUN) == isRun && StartsWith(r, MD_MEMO + RES) == !isRun
  {
    var r := name + tail;
    assert MD_MEMO + RUN == RUN_NAME && MD_MEMO + RES == RES_NAME;
    assert r[..11] == name;
    assert RUN_NAME[9] != RES_NAME[9];
  }

  lemma {:induction false} ReadsMarkerLine(line: Str) returns (attrs: Str)
    requires ReadMarker(line).Some?
    ensures var m := ReadMarker(line).value; MarkerLine(line, m.isRun, m.id, attrs) && m.attrs == Trim(attrs)
  {
    var m := ReadMarker(line).value;
    var blanks, space, rest := HasOpened(line);
    var gap, end;
    NamesAre();
    RestSplit(rest, m.isRun);
    gap, attrs, end := SplitTail(rest[11..], m.id);
    PartsFrom(line, m.isRun, m.id, attrs, blanks, space, rest, gap, end);
  }

  lemma {:induction false} RestSplit(rest: Str, isRun: bool)
    requires StartsWith(rest, if isRun then RUN_NAME else RES_NAME)
    ensures |rest| >= 11 && rest == (if isRun then RUN_NAME else RES_NAME) + rest[11..]
  {
    assert rest == rest[..11] + rest[11..];
  }

  lemma {:induction false} PartsFrom(line: Str, isRun: bool, id: Str, attrs: Str, blanks: Str, space: Str, rest: Str,
        gap: Str, end: Str)
    requires Opened(line, blanks, space, rest) && |rest| >= 11
    requires rest == (if isRun then RUN_NAME else RES_NAME) + rest[11..] && rest[11..] == gap + (id + (attrs + end))
    requires gap != [] && AllSpace(gap) && AllOf(id, IdPart) && Attributes(attrs) && Ended(end)
    ensures MarkerLine(line, isRun, id, attrs)
  {
    assert MarkerParts(line, isRun, id, attrs, blanks, space, gap, end);
  }

  lemma {:induction false} SplitTail(s: Str, id: Str) returns (gap: Str, attrs: Str, end: Str)
    requires ReadIdAndAttrs(s).Some? && id == ReadIdAndAttrs(s).value.0
    ensures s == gap + (id + (attrs + end)) && gap != [] && AllSpace(gap) && AllOf(id, IdPart) && Attributes(attrs)
    ensures Ended(end) && ReadIdAndAttrs(s).value.1 == Trim(attrs)
  {
    var i := RunEnd(s, 0, IsSpace);
    var x := s[i..];
    var e := RunEnd(x, 0, IdUnit);
    var y := x[e..];
    var n := AttrsLength(y);
    gap, attrs, end := s[..i], y[..n], y[n..];
    IdRead(s, i, x, e, y, n);
    assert Attributes(attrs) by { ReadAttributes(y); }
    assert Ended(end) by { EndedIs(end); }
    assert s == gap + (id + (attrs + end)) by { TailParts(s, i, x, e, y, n); }
  }

  lemma {:induction false} IdRead(s: Str, i: nat, x: Str, e: nat, y: Str, n: nat)
    requires ReadIdAndAttrs(s).Some? && i == RunEnd(s, 0, IsSpace) && x == s[i..] && e == RunEnd(x, 0, IdUnit)
    requires y == x[e..] && n == AttrsLength(y)
    ensures ReadIdAndAttrs(s) == Some((x[..e], Trim(y[..n]))) && IsEnd(y[n..])
    ensures s[..i] != [] && AllSpace(s[..i]) && AllOf(x[..e], IdPart)
  {
    IdUnfold(s, i, x, e, y, n);
    IdClasses(s, i, x, e);
  }

  lemma {:induction false} IdUnfold(s: Str, i: nat, x: Str, e: nat, y: Str, n: nat)
    requires ReadIdAndAttrs(s).Some? && i == RunEnd(s, 0, IsSpace) && x == s[i..] && e == RunEnd(x, 0, IdUnit)
    requires y == x[e..] && n == AttrsLength(y)
    ensures ReadIdAndAttrs(s) == Some((x[..e], Trim(y[..n]))) && IsEnd(y[n..]) && e > 0 && i > 0
  {
    assert SkipSpace(s) == x;
  }

  lemma {:induction false} IdClasses(s: Str, i: nat, x: Str, e: nat)
    requires i == RunEnd(s, 0, IsSpace) && x == s[i..] && e == RunEnd(x, 0, IdUnit) && e > 0 && i > 0
    ensures s[..i] != [] && AllSpace(s[..i]) && AllOf(x[..e], IdPart)
  {
  }

  lemma {:induction false} TailParts(s: Str, i: nat, x: Str, e: nat, y: Str, n: nat)
    requires i <= |s| && x == s[i..] && e <= |x| && y == x[e..] && n <= |y|
    ensures s == s[..i] + (x[..e] + (y[..n] + y[n..]))
  {
  }

  // ----- where a block ends --------------------------------------------------------------------------------

  ghost predicate StartsLine(t: Str, p: nat) {
    p <= |t| && (p == 0 || t[p - 1] == LF)
  }

  function LineFrom(t: Str, p: nat): Str
    requires p <= |t|
  {
    t[p..LineEnd(t, p)]
  }

  /** The first closing line from p on is at q, and no opening line comes before it. */
  ghost predicate ClosesAt(isCloser: LineTest, isOpener: LineTest, t: Str, p: nat, q: nat) {
    && p <= q && StartsLine(t, q) && isCloser(LineFrom(t, q))
    && forall m: nat :: p <= m < q && StartsLine(t, m) ==> !isCloser(LineFrom(t, m)) && !isOpener(LineFrom(t, m))
  }

  /** The block ends with the closing line, without the blanks behind it. */
  ghost predicate EndsBlock(t: Str, q: nat, end: nat) {
    q <= end <= |t| && end <= LineEnd(t, q) && AllBlank(t[end..LineEnd(t, q)]) && (end > q ==> !IsBlank(t[end - 1]))
  }

  lemma {:induction false} LineBlanks(t: Str, q: nat)
    requires q <= |t|
    ensures EndsBlock(t, q, q + RunStart(LineFrom(t, q), |LineFrom(t, q)|, IsBlank))
  {
    var line := LineFrom(t, q);
    var n, le := RunStart(line, |line|, IsBlank), LineEnd(t, q);
    assert forall k :: 0 <= k < |line| ==> line[k] == t[q + k];
    assert AllBlank(t[q + n..le]) by { assert forall k :: n <= k < |line| ==> line[k] == t[q + n..le][k - n]; }
  }

  lemma {:induction false} CloseMeans(isCloser: LineTest, isOpener: LineTest, t: Str, p: nat)
    requires p <= |t| ==> StartsLine(t, p)
    requires p <= |t| + 1
    ensures match CloseFrom(isCloser, isOpener, t, p)
      case None => forall q: nat :: !ClosesAt(isCloser, isOpener, t, p, q)
      case Some(end) => exists q: nat :: ClosesAt(isCloser, isOpener, t, p, q) && EndsBlock(t, q, end)
    decreases |t| + 1 - p
  {
    if p <= |t| {
      var line, next := LineFrom(t, p), NextBreak(t, p) + 1;
      if isCloser(line) {
        assert ClosesAt(isCloser, isOpener, t, p, p);
        LineBlanks(t, p);
      } else if !isOpener(line) {
        CloseMeans(isCloser, isOpener, t, next);
        forall q: nat
          ensures ClosesAt(isCloser, isOpener, t, p, q) <==> ClosesAt(isCloser, isOpener, t, next, q)
        {
          NextClose(isCloser, isOpener, t, p, next, q);
        }
      }
    }
  }

  lemma {:induction false} NextClose(isCloser: LineTest, isOpener: LineTest, t: Str, p: nat, next: nat, q: nat)
    requires p <= |t| && next == NextBreak(t, p) + 1 && !isCloser(LineFrom(t, p)) && !isOpener(LineFrom(t, p))
    ensures ClosesAt(isCloser, isOpener, t, p, q) <==> ClosesAt(isCloser, isOpener, t, next, q)
  {
    forall m: nat | p < m < next ensures !StartsLine(t, m) {
      if m <= |t| { assert t[m - 1] != LF; }
    }
  }

  // ----- what is found under a task ------------------------------------------------------------------------

  /** An empty line is neither, so a carriage return at the end of the opening line does not matter. */
  lemma {:induction false} EmptyLine()
    ensures !IsCloser([]) && !IsAnyOpener([])
  {
  }

  lemma {:induction false} BehindReturn(isCloser: LineTest, isOpener: LineTest, t: Str, ls: nat, next: nat)
    requires ls <= |t| && next == NextBreak(t, ls) + 1 && !isCloser([]) && !isOpener([])
    ensures CloseFrom(isCloser, isOpener, t, LineEnd(t, ls) + 1) == CloseFrom(isCloser, isOpener, t, next)
  {
    var le, nl := LineEnd(t, ls), NextBreak(t, ls);
    if le < nl {
      assert t[le] == CR && le + 1 == nl;
      BreakIs(t, nl, nl);
      assert t[nl..LineEnd(t, nl)] == [];
    }
  }

  /** The line under a task. */
  ghost predicate UnderTask(t: Str, taskEnd: nat, ls: nat, line: Str) {
    taskEnd <= |t| && NextBreak(t, taskEnd) < |t| && ls == NextBreak(t, taskEnd) + 1 && line == LineFrom(t, ls)
  }

  /** What is found there, from what the line reads as and from where a block would end. */
  function FoundFor(m: Option<Marker>, ls: nat, line: Str, close: Option<nat>): Option<Found> {
    if m.None? then None
    else
      var start := ls + RunEnd(line, 0, IsBlank);
      Some(if !m.value.isRun && close.Some? then Found(true, m.value, start, close.value)
           else Found(false, m.value, start, ls + RunStart(line, |line|, IsBlank)))
  }

  lemma {:induction false} UnderIs(rx: Patterns, t: Str, taskEnd: nat, ls: nat, line: Str, m: Option<Marker>,
        next: nat, close: Option<nat>)
    requires UnderTask(t, taskEnd, ls, line) && m == rx.read(line) && !rx.isCloser([]) && !rx.isOpener([])
    requires next == NextBreak(t, ls) + 1 && close == CloseFrom(rx.isCloser, rx.isOpener, t, next)
    ensures ResultAfter(rx, t, taskEnd) == FoundFor(m, ls, line, close)
  {
    assert CloseFrom(rx.isCloser, rx.isOpener, t, LineEnd(t, ls) + 1) == close by {
      BehindReturn(rx.isCloser, rx.isOpener, t, ls, next);
    }
    ResultUnfold(rx, t, taskEnd, ls, LineEnd(t, ls), line, m, close);
  }

  lemma {:induction false} ResultUnfold(rx: Patterns, t: Str, taskEnd: nat, ls: nat, le: nat, line: Str,
        m: Option<Marker>, close: Option<nat>)
    requires UnderTask(t, taskEnd, ls, line) && m == rx.read(line) && le == LineEnd(t, ls)
    requires le < |t| + 1 && close == CloseFrom(rx.isCloser, rx.isOpener, t, le + 1)
    ensures ResultAfter(rx, t, taskEnd) == FoundFor(m, ls, line, close)
  {
  }

  /** Nothing is found where no line is. */
  lemma {:induction false} NoLineUnder(t: Str, taskEnd: nat)
    requires taskEnd <= |t| && NextBreak(t, taskEnd) == |t|
    ensures ResultAfter(PATTERNS, t, taskEnd) == None
  {
  }

  /** What is found is a marker line. */
  lemma {:induction false} FoundIsMarker(t: Str, taskEnd: nat, ls: nat, line: Str) returns (attrs: Str)
    requires UnderTask(t, taskEnd, ls, line) && ResultAfter(PATTERNS, t, taskEnd).Some?
    ensures ReadMarker(line).Some?
    ensures var m := ReadMarker(line).value; MarkerLine(line, m.isRun, m.id, attrs) && m.attrs == Trim(attrs)
  {
    FoundReads(PATTERNS, t, taskEnd, ls, line);
    attrs := ReadsMarkerLine(line);
  }

  lemma {:induction false} FoundReads(rx: Patterns, t: Str, taskEnd: nat, ls: nat, line: Str)
    requires UnderTask(t, taskEnd, ls, line) && ResultAfter(rx, t, taskEnd).Some?
    ensures rx.read(line).Some?
  {
  }

  /** The block is closed before another opens. */
  ghost predicate BlockEnds(rx: Patterns, t: Str, next: nat, end: nat) {
    exists q: nat :: ClosesAt(rx.isCloser, rx.isOpener, t, next, q) && EndsBlock(t, q, end)
  }

  ghost predicate NeverEnds(rx: Patterns, t: Str, next: nat) {
    forall q: nat :: !ClosesAt(rx.isCloser, rx.isOpener, t, next, q)
  }

  /** Where a marker line is read as a whole block, and where it stands alone. */
  ghost predicate FoundUnder(rx: Patterns, t: Str, ls: nat, line: Str, marker: Marker, r: Found)
    requires ls <= |t|
  {
    && r.marker == marker && r.start == ls + RunEnd(line, 0, IsBlank)
    && (r.isBlock ==> !marker.isRun && BlockEnds(rx, t, NextBreak(t, ls) + 1, r.end))
    && (!r.isBlock ==> EndsBlock(t, ls, r.end) && (marker.isRun || NeverEnds(rx, t, NextBreak(t, ls) + 1)))
  }

  lemma {:induction false} FoundForIs(rx: Patterns, t: Str, ls: nat, line: Str, marker: Marker, next: nat,
        close: Option<nat>, r: Found)
    requires ls <= |t| && line == LineFrom(t, ls) && next == NextBreak(t, ls) + 1
    requires close == CloseFrom(rx.isCloser, rx.isOpener, t, next) && Some(r) == FoundFor(Some(marker), ls, line, close)
    ensures FoundUnder(rx, t, ls, line, marker, r)
  {
    CloseMeans(rx.isCloser, rx.isOpener, t, next);
    LineBlanks(t, ls);
  }

  /** A marker line under a task is found, with its block when that is closed before another opens. */
  lemma {:induction false} MarkerUnder(t: Str, taskEnd: nat, ls: nat, line: Str, isRun: bool, id: Str, attrs: Str)
    returns (r: Found)
    requires UnderTask(t, taskEnd, ls, line) && MarkerLine(line, isRun, id, attrs)
    ensures ResultAfter(PATTERNS, t, taskEnd) == Some(r)
    ensures FoundUnder(PATTERNS, t, ls, line, Marker(isRun, id, Trim(attrs)), r)
  {
    var marker, next := Marker(isRun, id, Trim(attrs)), NextBreak(t, ls) + 1;
    var close := CloseFrom(PATTERNS.isCloser, PATTERNS.isOpener, t, next);
    r := FoundFor(Some(marker), ls, line, close).value;
    assert PATTERNS.read(line) == Some(marker) by { MarkerLineReads(line, isRun, id, attrs); }
    EmptyLine();
    UnderIs(PATTERNS, t, taskEnd, ls, line, Some(marker), next, close);
    FoundForIs(PATTERNS, t, ls, line, marker, next, close, r);
  }
}
