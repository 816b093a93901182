/**
  Lines and columns of a buffer: the walker that names the matches of a search, the inverse from line and column
  to an offset, and the loops of buffer find and buffer replace. The matches come from a regular-expression
  engine; all that is used of them is that they are in order, do not overlap and do not cut characters.
 */
module Walker {
  import opened Text
  import opened Utf16
  import EditCalculus

  // ----- line feeds in UTF-8 -------------------------------------------------------------------------------

  /** No character longer than one byte holds a line feed. */
  lemma {:induction false} OneByteFeed(s: Bytes, i: nat, k: nat)
    requires i < |s| && i <= k < i + Size(s, i) && s[k] == LF
    ensures k == i && Size(s, i) == 1
  {
  }

  /** Right after a line feed, and right before it, a character starts. */
  lemma {:induction false} FeedIsBoundary(s: Bytes, b: nat, k: nat)
    requires b <= k < |s| && s[k] == LF
    ensures Floor(s, b, k) == k && Floor(s, b, k + 1) == k + 1
    decreases |s| - b
  {
    if b < k {
      if b + Size(s, b) > k { OneByteFeed(s, b, k); }
      FeedIsBoundary(s, b + Size(s, b), k);
    } else {
      assert Size(s, k) == 1;
    }
  }

  lemma {:induction false} LineStartBoundary(s: Bytes, b: nat)
    requires b <= |s|
    ensures Boundary(s, LineStart(s, b))
  {
    var ls := LineStart(s, b);
    if ls > 0 { FeedIsBoundary(s, 0, ls - 1); }
  }

  // ----- the walker ----------------------------------------------------------------------------------------

  /** The 1-based column, in UTF-16 units, of byte offset b. */
  function Column(s: Bytes, b: nat): int
    requires b <= |s|
  {
    Count(s, 0, b) - Count(s, 0, LineStart(s, b)) + 1
  }

  /** The first character start at or after b, reading on from one at `from`. */
  function Ceiling(s: Bytes, from: nat, b: int): (c: nat)
    requires from <= |s|
    ensures from <= c <= |s|
    decreases |s| - from
  {
    if from < b && from < |s| then Ceiling(s, from + Size(s, from), b) else from
  }

  lemma {:induction false} CeilingOfBoundary(s: Bytes, from: nat, b: nat)
    requires from <= b <= |s| && Floor(s, from, b) == b
    ensures Ceiling(s, from, b) == b
    decreases |s| - from
  {
    if from < b { CeilingOfBoundary(s, from + Size(s, from), b); }
  }

  /** The line count and the line start after one more character. */
  lemma {:induction false} LineStep(s: Bytes, b: nat)
    requires b < |s|
    ensures var next := b + Size(s, b);
      && (s[b] == LF <==> Rune(s, b) == 0x0A)
      && LinesBefore(s, next) == LinesBefore(s, b) + (if s[b] == LF then 1 else 0)
      && LineStart(s, next) == if s[b] == LF then next else LineStart(s, b)
  {
    var next := b + Size(s, b);
    if s[b] != LF {
      forall k | b <= k < next ensures s[k] != LF {
        if s[k] == LF { OneByteFeed(s, b, k); }
      }
      NoBreakNoLine(s, b, next);
      SameLineStart(s, b, next);
    }
  }

  lemma {:induction false} SameLineStart(s: Bytes, a: nat, b: nat)
    requires a <= b <= |s| && forall k :: a <= k < b ==> s[k] != LF
    ensures LineStart(s, b) == LineStart(s, a)
    decreases b
  {
    if a < b { SameLineStart(s, a, b - 1); }
  }

  class U16Walker {
    const s: Bytes
    var byteIdx: nat
    var u16: nat
    var line: nat
    var lineStartU16: nat
    var lineStart: nat

    ghost predicate Valid()
      reads this
    {
      && Boundary(s, byteIdx) && u16 == Count(s, 0, byteIdx)
      && line == LineNumber(s, byteIdx) && lineStart == LineStart(s, byteIdx) && lineStartU16 == Count(s, 0, lineStart)
    }

    constructor (text: Bytes)
      ensures Valid() && s == text && byteIdx == 0
    {
      s, byteIdx, u16, line, lineStartU16, lineStart := text, 0, 0, 1, 0, 0;
    }

    /** One character further. */
    method Advance()
      requires Valid() && byteIdx < |s|
      modifies this
      ensures Valid() && byteIdx == old(byteIdx + Size(s, byteIdx))
    {
      Forward(s, byteIdx);
      LineStep(s, byteIdx);
      var r, size := Rune(s, byteIdx), Size(s, byteIdx);
      u16 := u16 + if r >= 0x10000 then 2 else 1;
      byteIdx := byteIdx + size;
      if r == 0x0A { line, lineStartU16, lineStart := line + 1, u16, byteIdx; }
    }

    /** Asked for a character start not before where it is, it names that very place. */
    method At(b: int) returns (offset: nat, number: nat, column: int)
      requires Valid()
      modifies this
      ensures Valid() && byteIdx == Ceiling(s, old(byteIdx), b)
      ensures offset == Count(s, 0, byteIdx) && number == LineNumber(s, byteIdx) && column == Column(s, byteIdx)
    {
      while byteIdx < b && byteIdx < |s|
        invariant Valid() && Ceiling(s, byteIdx, b) == Ceiling(s, old(byteIdx), b)
        decreases |s| - byteIdx
      {
        Advance();
      }
      offset, number, column := u16, line, u16 - lineStartU16 + 1;
    }

    /** The same for a character start ahead. */
    method To(b: nat) returns (offset: nat, number: nat, column: int)
      requires Valid() && byteIdx <= b && Boundary(s, b)
      modifies this
      ensures Valid() && byteIdx == b
      ensures offset == Count(s, 0, b) && number == LineNumber(s, b) && column == Column(s, b)
    {
      FloorFrom(s, 0, byteIdx, b);
      CeilingOfBoundary(s, byteIdx, b);
      offset, number, column := At(b);
    }
  }

  // ----- line and column back to an offset -----------------------------------------------------------------

  /** The lines of a text; every line feed ends one. */
  function Lines(s: Bytes): (lines: seq<Bytes>)
    ensures lines != []
    decreases |s|
  {
    var nl := NextBreak(s, 0);
    if nl == |s| then [s] else [s[..nl]] + Lines(s[nl + 1..])
  }

  function Utf16Length(s: Bytes): nat { |Encoded(s, 0)| }

  method MeasureUtf16(s: Bytes) returns (n: nat)
    ensures n == Utf16Length(s)
  {
    n := 0;
    var b := 0;
    while b < |s|
      invariant b <= |s| && n + |Encoded(s, b)| == |Encoded(s, 0)|
      decreases |s| - b
    {
      n, b := n + |Units(Rune(s, b))|, b + Size(s, b);
    }
  }

  /** Where line number k (from 0) starts, each line before it with its break. */
  function LinesLength(lines: seq<Bytes>, k: nat): nat {
    if k == 0 || lines == [] then 0 else Utf16Length(lines[0]) + 1 + LinesLength(lines[1..], k - 1)
  }

  function AtLeastOne(v: int): (n: nat)
    ensures n >= 1
  {
    if v < 1 then 1 else v
  }

  function OffsetOf(s: Bytes, line: int, col: int): nat {
    var off := LinesLength(Lines(s), AtLeastOne(line) - 1) + AtLeastOne(col) - 1;
    if off > Utf16Length(s) then Utf16Length(s) else off
  }

  method LineColToOffset(s: Bytes, line: int, col: int) returns (r: nat)
    ensures r == OffsetOf(s, line, col)
  {
    var l, c := AtLeastOne(line), AtLeastOne(col);
    var lines := Lines(s);
    var off, i := 0, 0;
    assert lines[0..] == lines;
    while i < l - 1 && i < |lines|
      invariant 0 <= i <= l - 1 && i <= |lines|
      invariant off + LinesLength(lines[i..], l - 1 - i) == LinesLength(lines, l - 1)
    {
      var n := MeasureUtf16(lines[i]);
      assert lines[i..][1..] == lines[i + 1..];
      off, i := off + n + 1, i + 1;
    }
    off := off + c - 1;
    var total := MeasureUtf16(s);
    r := if off > total then total else off;
  }

  /** The units between two character starts are those of the bytes between them. */
  lemma {:induction false} LengthBetween(s: Bytes, a: nat, b: nat)
    requires a <= b && Boundary(s, a) && Boundary(s, b)
    ensures Count(s, 0, b) == Count(s, 0, a) + Utf16Length(s[a..b])
    ensures Count(s, 0, b) <= Utf16Length(s)
  {
    CutsAgree(s, a, b);
  }

  /** The lines before a place add up to where its line starts. */
  lemma {:induction false} LinesReach(s: Bytes, b: nat)
    requires b <= |s|
    ensures LinesLength(Lines(s), LinesBefore(s, b)) == Count(s, 0, LineStart(s, b))
    decreases |s|
  {
    var nl := NextBreak(s, 0);
    if b <= nl {
      NoBreakNoLine(s, 0, b);
      SameLineStart(s, 0, b);
    } else {
      var tail, x := s[nl + 1..], Utf16Length(s[..nl]);
      var y, z := LinesLength(Lines(tail), LinesBefore(tail, b - nl - 1)), Count(tail, 0, LineStart(tail, b - nl - 1));
      assert y == z by { LinesReach(tail, b - nl - 1); }
      assert LinesLength(Lines(s), LinesBefore(s, b)) == x + 1 + y by {
        BehindFirst(s, nl, b, tail);
        LinesBehind(s, nl, tail, LinesBefore(tail, b - nl - 1));
      }
      assert Count(s, 0, LineStart(s, b)) == x + 1 + z by { BehindFirst(s, nl, b, tail); }
    }
  }

  lemma {:induction false} BehindFirst(s: Bytes, nl: nat, b: nat, tail: Bytes)
    requires nl == NextBreak(s, 0) < b <= |s| && tail == s[nl + 1..]
    ensures LinesBefore(s, b) == 1 + LinesBefore(tail, b - nl - 1)
    ensures Count(s, 0, LineStart(s, b)) == Utf16Length(s[..nl]) + 1 + Count(tail, 0, LineStart(tail, b - nl - 1))
  {
    NoBreakNoLine(s, 0, nl);
    BehindFeed(s, nl + 1, b, tail);
    FirstLineLength(s, nl);
    SuffixCount(s, nl + 1, b, tail);
  }

  lemma {:induction false} SplitFirst(s: Bytes, nl: nat, tail: Bytes)
    requires nl == NextBreak(s, 0) < |s| && tail == s[nl + 1..]
    ensures Lines(s) == [s[..nl]] + Lines(tail)
  {
  }

  lemma {:induction false} LinesBehind(s: Bytes, nl: nat, tail: Bytes, k: nat)
    requires nl == NextBreak(s, 0) < |s| && tail == s[nl + 1..]
    ensures LinesLength(Lines(s), 1 + k) == Utf16Length(s[..nl]) + 1 + LinesLength(Lines(tail), k)
  {
    SplitFirst(s, nl, tail);
    LinesCons(s[..nl], Lines(tail), k);
  }

  lemma {:induction false} LinesCons(first: Bytes, rest: seq<Bytes>, k: nat)
    ensures LinesLength([first] + rest, 1 + k) == Utf16Length(first) + 1 + LinesLength(rest, k)
  {
    assert ([first] + rest)[1..] == rest;
  }

  lemma {:induction false} FirstLineLength(s: Bytes, nl: nat)
    requires nl < |s| && s[nl] == LF
    ensures Count(s, 0, nl + 1) == Utf16Length(s[..nl]) + 1
  {
    FeedIsBoundary(s, 0, nl);
    LengthBetween(s, 0, nl);
    assert s[0..nl] == s[..nl];
    Forward(s, nl);
  }

  /** Lines are counted behind a line feed as they are from it. */
  lemma {:induction false} BehindFeed(s: Bytes, n: nat, b: nat, tail: Bytes)
    requires 0 < n <= b <= |s| && s[n - 1] == LF && tail == s[n..]
    ensures LinesBefore(s, b) == LinesBefore(s, n) + LinesBefore(tail, b - n)
    ensures LineStart(s, b) == n + LineStart(tail, b - n)
    decreases b
  {
    if n < b { BehindFeed(s, n, b - 1, tail); }
  }

  lemma {:induction false} SuffixCount(s: Bytes, n: nat, b: nat, tail: Bytes)
    requires 0 < n <= b <= |s| && s[n - 1] == LF && tail == s[n..]
    ensures Count(s, 0, LineStart(s, b)) == Count(s, 0, n) + Count(tail, 0, LineStart(tail, b - n))
  {
    var x := LineStart(tail, b - n);
    assert LineStart(s, b) == n + x by { BehindFeed(s, n, b, tail); }
    assert Boundary(s, n + x) by { LineStartBoundary(s, b); }
    assert Boundary(tail, x) by { LineStartBoundary(tail, b - n); }
    CountBehind(s, n, x, tail);
  }

  lemma {:induction false} CountBehind(s: Bytes, n: nat, x: nat, tail: Bytes)
    requires 0 < n && n + x <= |s| && s[n - 1] == LF && tail == s[n..] && Boundary(s, n + x) && Boundary(tail, x)
    ensures Count(s, 0, n + x) == Count(s, 0, n) + Count(tail, 0, x)
  {
    FeedIsBoundary(s, 0, n - 1);
    LengthBetween(s, n, n + x);
    LengthBetween(tail, 0, x);
    assert s[n..n + x] == tail[0..x];
  }

  /** The line and column of a place name that place: they lead back to its offset. */
  lemma {:induction false} PlaceIsNamed(s: Bytes, b: nat)
    requires Boundary(s, b)
    ensures OffsetOf(s, LineNumber(s, b), Column(s, b)) == ToUtf16(s, b) == Count(s, 0, b)
  {
    LinesReach(s, b);
    LineStartBoundary(s, b);
    LengthBetween(s, LineStart(s, b), b);
    FirstLinesCounted(s, b);
  }

  lemma {:induction false} FirstLinesCounted(s: Bytes, b: nat)
    requires b <= |s|
    ensures LineNumber(s, b) >= 1
  {
  }

  // ----- find ----------------------------------------------------------------------------------------------

  type Match = (nat, nat)

  /** What a search gives: byte ranges in order, apart from each other, at character starts. */
  ghost predicate Matches(s: Bytes, from: nat, ms: seq<Match>)
    decreases |ms|
  {
    if ms == [] then true
    else from <= ms[0].0 <= ms[0].1 && Boundary(s, ms[0].0) && Boundary(s, ms[0].1) && Matches(s, ms[0].1, ms[1..])
  }

  datatype Hit = Hit(start: nat, end: nat, line: nat, col: int, endLine: nat, endCol: int)

  /** A match as the page sees it. */
  function HitOf(s: Bytes, m: Match): Hit
    requires m.0 <= |s| && m.1 <= |s|
  {
    Hit(Count(s, 0, m.0), Count(s, 0, m.1), LineNumber(s, m.0), Column(s, m.0), LineNumber(s, m.1), Column(s, m.1))
  }

  /** Both ends of every hit are named the same place by offset and by line and column, and hold the matched text. */
  lemma {:induction false} HitNamesMatch(s: Bytes, m: Match)
    requires m.0 <= m.1 && Boundary(s, m.0) && Boundary(s, m.1)
    ensures var h := HitOf(s, m);
      && OffsetOf(s, h.line, h.col) == h.start && OffsetOf(s, h.endLine, h.endCol) == h.end
      && h.start <= h.end <= Utf16Length(s) && Encoded(s, 0)[h.start..h.end] == Encoded(s[m.0..m.1], 0)
  {
    PlaceIsNamed(s, m.0);
    PlaceIsNamed(s, m.1);
    CutsAgree(s, m.0, m.1);
  }

  /** The matches that are reported: at most `room` of those that are not empty. */
  function HitsOf(s: Bytes, ms: seq<Match>, room: nat): seq<Hit> {
    if ms == [] then []
    else if ms[0].0 == ms[0].1 then HitsOf(s, ms[1..], room)
    else if room == 0 || ms[0].0 > |s| || ms[0].1 > |s| then []
    else [HitOf(s, ms[0])] + HitsOf(s, ms[1..], room - 1)
  }

  /** The line and column of each end of a hit are the place of its offset. */
  ghost predicate Places(s: Bytes, h: Hit) {
    && OffsetOf(s, h.line, h.col) == h.start && OffsetOf(s, h.endLine, h.endCol) == h.end
    && h.start <= h.end <= Utf16Length(s)
  }

  /** Every hit that a search reports names the same places by offset and by line and column. */
  lemma {:induction false} HitsNamePlaces(s: Bytes, from: nat, ms: seq<Match>, room: nat)
    requires Matches(s, from, ms)
    ensures forall h :: h in HitsOf(s, ms, room) ==> Places(s, h)
    decreases |ms|
  {
    if ms != [] {
      HitsNamePlaces(s, ms[0].1, ms[1..], room);
      if room > 0 && ms[0].0 != ms[0].1 {
        HitNamesMatch(s, ms[0]);
        HitsNamePlaces(s, ms[0].1, ms[1..], room - 1);
      }
    }
  }

  function NotEmpty(ms: seq<Match>): nat {
    if ms == [] then 0 else (if ms[0].0 == ms[0].1 then 0 else 1) + NotEmpty(ms[1..])
  }

  /** One match, with the two walkers of a search. */
  method ReadHit(w: U16Walker, wEnd: U16Walker, m: Match) returns (h: Hit)
    requires w != wEnd && w.Valid() && wEnd.Valid() && w.s == wEnd.s
    requires w.byteIdx <= m.0 <= m.1 && wEnd.byteIdx <= m.1 && Boundary(w.s, m.0) && Boundary(w.s, m.1)
    modifies w, wEnd
    ensures w.Valid() && wEnd.Valid() && w.byteIdx == m.0 && wEnd.byteIdx == m.1 && h == HitOf(w.s, m)
  {
    var start, line, col := w.To(m.0);
    var end, endLine, endCol := wEnd.To(m.1);
    h := Hit(start, end, line, col, endLine, endCol);
  }

  /** Both walkers are in order and not past a place. */
  ghost predicate Ready(w: U16Walker, wEnd: U16Walker, s: Bytes, bound: nat)
    reads w, wEnd
  {
    w != wEnd && w.Valid() && wEnd.Valid() && w.s == s && wEnd.s == s && w.byteIdx <= bound && wEnd.byteIdx <= bound
  }

  /** The loop of a search: the hits of the first `limit` matches that are not empty, and whether there are more. */
  method FindMatches(s: Bytes, ms: seq<Match>, limit: nat) returns (hits: seq<Hit>, truncated: bool)
    requires Matches(s, 0, ms)
    ensures hits == HitsOf(s, ms, limit)
    ensures truncated <==> NotEmpty(ms) > limit
  {
    hits, truncated := [], false;
    var w := new U16Walker(s);
    var wEnd := new U16Walker(s);
    var i := 0;
    ghost var bound: nat := 0;
    while i < |ms|
      invariant 0 <= i <= |ms| && |hits| <= limit && fresh(w) && fresh(wEnd)
      invariant Ready(w, wEnd, s, bound) && Matches(s, bound, ms[i..])
      invariant hits + HitsOf(s, ms[i..], limit - |hits|) == HitsOf(s, ms, limit)
      invariant |hits| + NotEmpty(ms[i..]) == NotEmpty(ms)
    {
      var m := ms[i];
      assert ms[i..][0] == m && ms[i..][1..] == ms[i + 1..];
      i := i + 1;
      bound := m.1;
      if m.0 != m.1 {
        if |hits| == limit { return hits, true; }
        var h := ReadHit(w, wEnd, m);
        AppendStep(hits, [h], HitsOf(s, ms[i..], limit - |hits| - 1));
        hits := hits + [h];
      }
    }
  }

  // ----- replace -------------------------------------------------------------------------------------------

  type Expansion = Match -> Bytes

  /** The text from `last` on with every match that is not empty replaced. */
  function Replaced(s: Bytes, ms: seq<Match>, expand: Expansion, last: nat): Bytes
    requires last <= |s| && Matches(s, last, ms)
    decreases |ms|
  {
    if ms == [] then s[last..]
    else if ms[0].0 == ms[0].1 then MatchesEarlier(s, last, ms[0].1, ms[1..]); Replaced(s, ms[1..], expand, last)
    else s[last..ms[0].0] + (expand(ms[0]) + Replaced(s, ms[1..], expand, ms[0].1))
  }

  lemma {:induction false} MatchesEarlier(s: Bytes, earlier: nat, from: nat, ms: seq<Match>)
    requires earlier <= from && Matches(s, from, ms)
    ensures Matches(s, earlier, ms)
  {
  }

  /** The loop that builds the new text. */
  method ReplaceMatches(s: Bytes, ms: seq<Match>, expand: Expansion) returns (out: Bytes, n: nat)
    requires Matches(s, 0, ms)
    ensures out == Replaced(s, ms, expand, 0) && n == NotEmpty(ms)
  {
    out, n := [], 0;
    var last: nat, i: nat := 0, 0;
    while i < |ms|
      invariant 0 <= i <= |ms| && last <= |s| && Matches(s, last, ms[i..])
      invariant out + Replaced(s, ms[i..], expand, last) == Replaced(s, ms, expand, 0)
      invariant n + NotEmpty(ms[i..]) == NotEmpty(ms)
    {
      var m := ms[i];
      assert ms[i..][0] == m && ms[i..][1..] == ms[i + 1..];
      i := i + 1;
      if m.0 == m.1 {
        MatchesEarlier(s, last, m.1, ms[i..]);
      } else {
        MoveReplacement(out, s[last..m.0], expand(m), Replaced(s, ms[i..], expand, m.1));
        out := out + s[last..m.0] + expand(m);
        last, n := m.1, n + 1;
      }
    }
    out := out + s[last..];
  }

  lemma {:induction false} MoveReplacement(out: Bytes, kept: Bytes, put: Bytes, left: Bytes)
    ensures ((out + kept) + put) + left == out + (kept + (put + left))
  {
  }

  /** The replacements as edits of the text. */
  function EditsOf(ms: seq<Match>, expand: Expansion): seq<EditCalculus.Edit>
    requires forall i :: 0 <= i < |ms| ==> ms[i].0 <= ms[i].1
  {
    if ms == [] then []
    else if ms[0].0 == ms[0].1 then EditsOf(ms[1..], expand)
    else [EditCalculus.Edit(ms[0].0, ms[0].1 - ms[0].0, expand(ms[0]), EditCalculus.Open)] + EditsOf(ms[1..], expand)
  }

  lemma {:induction false} MatchesInOrder(s: Bytes, from: nat, ms: seq<Match>)
    requires Matches(s, from, ms)
    ensures forall i :: 0 <= i < |ms| ==> ms[i].0 <= ms[i].1
    decreases |ms|
  {
    if ms != [] {
      MatchesInOrder(s, ms[0].1, ms[1..]);
      forall i | 0 <= i < |ms| ensures ms[i].0 <= ms[i].1 {
        if i > 0 { assert ms[1..][i - 1] == ms[i]; }
      }
    }
  }

  /** Replacing is applying the edits. */
  lemma {:induction false} ReplacedIsApplied(s: Bytes, ms: seq<Match>, expand: Expansion, last: nat,
        edits: seq<EditCalculus.Edit>)
    requires last <= |s| && Matches(s, last, ms) && (forall i :: 0 <= i < |ms| ==> ms[i].0 <= ms[i].1) &&
      edits == EditsOf(ms, expand)
    ensures EditCalculus.Ordered(edits, last, |s|)
    ensures Replaced(s, ms, expand, last) == EditCalculus.Apply(s, last, |s|, edits)
    decreases |ms|
  {
    if ms != [] {
      var rest := EditsOf(ms[1..], expand);
      if ms[0].0 == ms[0].1 {
        MatchesEarlier(s, last, ms[0].1, ms[1..]);
        ReplacedIsApplied(s, ms[1..], expand, last, rest);
      } else {
        ReplacedIsApplied(s, ms[1..], expand, ms[0].1, rest);
        assert edits[1..] == rest && EditCalculus.Ordered(edits, last, |s|);
        assert EditCalculus.Apply(s, last, |s|, edits)
            == s[last..ms[0].0] + (expand(ms[0]) + EditCalculus.Apply(s, ms[0].1, |s|, rest));
      }
    }
  }

  /** Every byte outside the replaced matches is still in the new text, where the edits carry it. */
  lemma {:induction false} ReplaceKeeps(s: Bytes, ms: seq<Match>, expand: Expansion, p: nat)
    requires Matches(s, 0, ms) && p < |s| && forall i :: 0 <= i < |ms| ==> !(ms[i].0 <= p < ms[i].1)
    ensures forall i :: 0 <= i < |ms| ==> ms[i].0 <= ms[i].1
    ensures var q := EditCalculus.MapPos(p, EditsOf(ms, expand), EditCalculus.Always);
      0 <= q < |Replaced(s, ms, expand, 0)| && Replaced(s, ms, expand, 0)[q] == s[p]
  {
    MatchesInOrder(s, 0, ms);
    var edits := EditsOf(ms, expand);
    ReplacedIsApplied(s, ms, expand, 0, edits);
    NotInEdits(ms, expand, p);
    EditCalculus.SurvivorsMove(s, 0, |s|, edits, p);
  }

  lemma {:induction false} NotInEdits(ms: seq<Match>, expand: Expansion, p: nat)
    requires forall i :: 0 <= i < |ms| ==> ms[i].0 <= ms[i].1
    requires forall i :: 0 <= i < |ms| ==> !(ms[i].0 <= p < ms[i].1)
    ensures !EditCalculus.Deleted(p, EditsOf(ms, expand))
  {
    if ms != [] {
      NotInEdits(ms[1..], expand, p);
      var edits, rest := EditsOf(ms, expand), EditsOf(ms[1..], expand);
      forall i | 0 <= i < |edits| ensures !(edits[i].pos <= p < edits[i].pos + edits[i].del) {
        if ms[0].0 != ms[0].1 && i > 0 { assert edits[i] == rest[i - 1]; }
      }
    }
  }
}
