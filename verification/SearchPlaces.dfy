/** Find and replace in a buffer, told from the text: where a place is, which matches are reported, what is written. */
module SearchPlaces {
  import opened Text
  import opened Utf16
  import opened Walker

  // ----- lines and columns ---------------------------------------------------------------------------------

  /** The line feeds before b. */
  ghost function Feeds(s: Bytes, b: nat): set<nat>
    requires b <= |s|
  {
    set k: nat | k < b && s[k] == 0x0A
  }

  lemma {:induction false} FeedsCounted(s: Bytes, b: nat)
    requires b <= |s|
    ensures LinesBefore(s, b) == |Feeds(s, b)|
  {
    if b > 0 {
      FeedsCounted(s, b - 1);
      assert s[b - 1] == 0x0A ==> Feeds(s, b) == Feeds(s, b - 1) + {b - 1};
      assert s[b - 1] != 0x0A ==> Feeds(s, b) == Feeds(s, b - 1);
    }
  }

  /** A text up to the start of a line, and one on that line. */
  ghost predicate OnLine(head: Bytes, tail: Bytes) {
    (head == [] || head[|head| - 1] == 0x0A) && forall k :: 0 <= k < |tail| ==> tail[k] != 0x0A
  }

  /** The line is one more than the line feeds before it, the column one more than the units on its line. */
  lemma {:induction false} PlaceIs(s: Bytes, head: Bytes, tail: Bytes, rest: Bytes, b: nat)
    requires s == head + (tail + rest) && OnLine(head, tail) && b == |head| + |tail| && Boundary(s, b)
    ensures LineNumber(s, b) == |Feeds(s, b)| + 1 && Column(s, b) == Utf16Length(tail) + 1
  {
    FeedsCounted(s, b);
    assert s[|head|..b] == tail && LineStart(s, b) == |head| by { TailOnLine(s, head, tail, rest, b); }
    LineStartBoundary(s, b);
    LengthBetween(s, |head|, b);
  }

  lemma {:induction false} TailOnLine(s: Bytes, head: Bytes, tail: Bytes, rest: Bytes, b: nat)
    requires s == head + (tail + rest) && OnLine(head, tail) && b == |head| + |tail|
    ensures s[|head|..b] == tail && LineStart(s, b) == |head|
  {
    forall k | |head| <= k < b ensures s[k] != LF { assert s[k] == tail[k - |head|]; }
    assert head != [] ==> s[|head| - 1] == head[|head| - 1];
    LineStartIs(s, b, |head|);
  }

  /** The offset of a column on a line, and of no line: both no further than the end. */
  lemma {:induction false} OffsetIs(s: Bytes, head: Bytes, tail: Bytes, line: int, col: int)
    requires s == head + tail && (head == [] || head[|head| - 1] == 0x0A)
    requires if line <= 1 then head == [] else |Feeds(s, |head|)| == line - 1
    ensures var off := Utf16Length(head) + (if col < 1 then 0 else col - 1);
      OffsetOf(s, line, col) == if off > Utf16Length(s) then Utf16Length(s) else off
  {
    var n := |head|;
    FeedsCounted(s, n);
    LinesReach(s, n);
    assert LineStart(s, n) == n;
    LineStartBoundary(s, n);
    LengthBetween(s, 0, n);
    assert s[0..n] == head;
  }

  lemma {:induction false} OffsetPast(s: Bytes, line: int, col: int)
    requires line - 1 > |Feeds(s, |s|)|
    ensures OffsetOf(s, line, col) == Utf16Length(s)
  {
    FeedsCounted(s, |s|);
    LinesPast(s, line - 1);
  }

  lemma {:induction false} LinesPast(s: Bytes, k: nat)
    requires k > LinesBefore(s, |s|)
    ensures LinesLength(Lines(s), k) == Utf16Length(s) + 1
    decreases |s|
  {
    var nl := NextBreak(s, 0);
    if nl == |s| {
      LinesCons(s, [], k - 1);
      assert [s] + [] == [s];
    } else {
      var tail := s[nl + 1..];
      assert k - 1 > LinesBefore(tail, |tail|) by { BehindFirst(s, nl, |s|, tail); }
      LinesPast(tail, k - 1);
      assert LinesLength(Lines(s), k) == Utf16Length(s[..nl]) + 1 + (Utf16Length(tail) + 1) by {
        LinesBehind(s, nl, tail, k - 1);
      }
      FirstAndTail(s, nl, tail);
    }
  }

  lemma {:induction false} FirstAndTail(s: Bytes, nl: nat, tail: Bytes)
    requires nl < |s| && s[nl] == LF && tail == s[nl + 1..]
    ensures Utf16Length(s) == Utf16Length(s[..nl]) + 1 + Utf16Length(tail)
  {
    FirstLineLength(s, nl);
    FeedIsBoundary(s, 0, nl);
    EndIsBoundary(s);
    LengthBetween(s, nl + 1, |s|);
    LengthBetween(s, 0, |s|);
    assert s[nl + 1..|s|] == tail && s[0..|s|] == s;
  }

  lemma {:induction false} EndIsBoundary(s: Bytes)
    ensures Boundary(s, |s|)
  {
    LastIsEnd(s, 0);
  }

  lemma {:induction false} LastIsEnd(s: Bytes, b: nat)
    requires b <= |s|
    ensures Floor(s, b, |s|) == |s|
    decreases |s| - b
  {
    if b < |s| { LastIsEnd(s, b + Size(s, b)); }
  }

  // ----- the matches reported ------------------------------------------------------------------------------

  /** The matches before number k that are not empty. */
  ghost function Solid(ms: seq<Match>, k: nat): set<nat>
    requires k <= |ms|
  {
    set i: nat | i < k && ms[i].0 != ms[i].1
  }

  lemma {:induction false} SolidMore(ms: seq<Match>, k: nat)
    requires k < |ms|
    ensures |Solid(ms, k + 1)| == |Solid(ms, k)| + if ms[k].0 != ms[k].1 then 1 else 0
  {
    assert ms[k].0 != ms[k].1 ==> Solid(ms, k + 1) == Solid(ms, k) + {k};
    assert ms[k].0 == ms[k].1 ==> Solid(ms, k + 1) == Solid(ms, k);
  }

  ghost predicate InText(s: Bytes, ms: seq<Match>) {
    forall i :: 0 <= i < |ms| ==> ms[i].0 <= |s| && ms[i].1 <= |s|
  }

  /** One match more. */
  lemma {:induction false} HitsMore(s: Bytes, ms: seq<Match>, m: Match, room: nat)
    requires InText(s, ms) && m.0 <= |s| && m.1 <= |s|
    ensures |HitsOf(s, ms, room)| <= room
    ensures HitsOf(s, ms + [m], room)
         == HitsOf(s, ms, room) + if m.0 != m.1 && |HitsOf(s, ms, room)| < room then [HitOf(s, m)] else []
  {
    var all := ms + [m];
    if ms == [] {
      assert all == [m] && all[1..] == [];
    } else {
      assert all[1..] == ms[1..] + [m];
      if ms[0].0 == ms[0].1 {
        HitsMore(s, ms[1..], m, room);
      } else if room > 0 {
        HitsMore(s, ms[1..], m, room - 1);
        FirstHit(HitOf(s, ms[0]), HitsOf(s, ms[1..], room - 1),
          if m.0 != m.1 && |HitsOf(s, ms[1..], room - 1)| < room - 1 then [HitOf(s, m)] else []);
      }
    }
  }

  lemma {:induction false} FirstHit(h: Hit, hits: seq<Hit>, more: seq<Hit>)
    ensures [h] + (hits + more) == ([h] + hits) + more
  {
  }

  /** As many as fit, and the n-th is the n-th match that is not empty. */
  ghost predicate Lists(s: Bytes, ms: seq<Match>, room: nat, k: nat, hits: seq<Hit>)
    requires InText(s, ms) && k <= |ms|
  {
    && |hits| == (if |Solid(ms, k)| < room then |Solid(ms, k)| else room)
    && forall i :: 0 <= i < k && ms[i].0 != ms[i].1 && |Solid(ms, i)| < room ==>
      |Solid(ms, i)| < |hits| && hits[|Solid(ms, i)|] == HitOf(s, ms[i])
  }

  lemma {:induction false} ListsMore(s: Bytes, ms: seq<Match>, room: nat, k: nat, hits: seq<Hit>, more: seq<Hit>)
    requires InText(s, ms) && k < |ms| && Lists(s, ms, room, k, hits)
    requires more == hits + if ms[k].0 != ms[k].1 && |hits| < room then [HitOf(s, ms[k])] else []
    ensures Lists(s, ms, room, k + 1, more)
  {
    assert |more| == if |Solid(ms, k + 1)| < room then |Solid(ms, k + 1)| else room by { SolidMore(ms, k); }
    forall i | 0 <= i < k + 1 && ms[i].0 != ms[i].1 && |Solid(ms, i)| < room
      ensures |Solid(ms, i)| < |more| && more[|Solid(ms, i)|] == HitOf(s, ms[i])
    {
      var n := |Solid(ms, i)|;
      if i < k { assert n < |hits| && more[n] == hits[n]; }
    }
  }

  lemma {:induction false} HitsNext(s: Bytes, ms: seq<Match>, room: nat, k: nat, front: seq<Match>)
    requires InText(s, ms) && k < |ms| && front == ms[..k]
    ensures HitsOf(s, ms[..k + 1], room)
         == HitsOf(s, front, room) +
            if ms[k].0 != ms[k].1 && |HitsOf(s, front, room)| < room then [HitOf(s, ms[k])] else []
  {
    assert ms[..k + 1] == front + [ms[k]];
    HitsMore(s, front, ms[k], room);
  }

  /** The hits of a search. */
  lemma {:induction false} HitsAre(s: Bytes, ms: seq<Match>, room: nat, k: nat)
    requires InText(s, ms) && k <= |ms|
    ensures Lists(s, ms, room, k, HitsOf(s, ms[..k], room))
  {
    if k > 0 {
      HitsAre(s, ms, room, k - 1);
      HitsNext(s, ms, room, k - 1, ms[..k - 1]);
      ListsMore(s, ms, room, k - 1, HitsOf(s, ms[..k - 1], room), HitsOf(s, ms[..k], room));
    } else {
      assert ms[..k] == [] && Solid(ms, k) == {};
    }
  }

  // ----- what replacing writes -----------------------------------------------------------------------------

  /** Text that stays, and a match behind it. */
  datatype Part = Part(gap: Bytes, found: Bytes)

  /** A text out of its parts, with each match as it is or as something else. */
  function Woven(parts: seq<Part>, tail: Bytes): Bytes {
    if parts == [] then tail else parts[0].gap + (parts[0].found + Woven(parts[1..], tail))
  }

  function RangesIn(parts: seq<Part>, at: nat): (ms: seq<Match>)
    ensures |ms| == |parts|
  {
    if parts == [] then []
    else
      var start := at + |parts[0].gap|;
      var end := start + |parts[0].found|;
      [(start, end)] + RangesIn(parts[1..], end)
  }

  /** The same parts with each match that is not empty expanded. */
  function Expanded(parts: seq<Part>, at: nat, expand: Expansion): seq<Part> {
    if parts == [] then []
    else
      var m := RangesIn(parts, at)[0];
      [Part(parts[0].gap, if parts[0].found == [] then [] else expand(m))] + Expanded(parts[1..], m.1, expand)
  }

  /** What stays stays, and every match that is not empty is replaced by what it expands to. */
  lemma {:induction false} ReplacedIs(s: Bytes, parts: seq<Part>, tail: Bytes, last: nat, at: nat, expand: Expansion)
    requires last <= at <= |s| && s[at..] == Woven(parts, tail) && Matches(s, last, RangesIn(parts, at))
    ensures Replaced(s, RangesIn(parts, at), expand, last)
         == s[last..at] + Woven(Expanded(parts, at, expand), tail)
    decreases |parts|
  {
    if parts == [] {
      assert s[last..] == s[last..at] + s[at..];
    } else {
      var ms, x := RangesIn(parts, at), parts[0];
      var start, end := ms[0].0, ms[0].1;
      var rest := Woven(parts[1..], tail);
      assert ms[1..] == RangesIn(parts[1..], end);
      assert s[at..start] == x.gap && s[start..end] == x.found && s[end..] == rest && end <= |s| by {
        PartAt(s, at, start, end, x, rest);
      }
      if x.found == [] { MatchesEarlier(s, last, end, ms[1..]); }
      ReplacedIs(s, parts[1..], tail, if x.found == [] then last else end, end, expand);
      PartWritten(s, last, at, start, end, x, expand(ms[0]), Woven(Expanded(parts[1..], end, expand), tail));
    }
  }

  lemma {:induction false} PartWritten(s: Bytes, last: nat, at: nat, start: nat, end: nat, x: Part, put: Bytes,
        rest: Bytes)
    requires last <= at <= start <= end <= |s| && s[at..start] == x.gap && s[start..end] == x.found
    ensures x.found == [] ==> s[last..end] + rest == s[last..at] + (x.gap + ([] + rest))
    ensures s[last..start] + (put + (s[end..end] + rest)) == s[last..at] + (x.gap + (put + rest))
  {
    SliceJoin(s, last, at, start);
    assert s[end..end] + rest == rest && [] + rest == rest;
    Associate(s[last..at], x.gap, rest);
    Associate(s[last..at], x.gap, put + rest);
  }

  lemma {:induction false} PartAt(s: Bytes, at: nat, start: nat, end: nat, x: Part, rest: Bytes)
    requires at <= |s| && s[at..] == x.gap + (x.found + rest) && start == at + |x.gap| && end == start + |x.found|
    ensures end <= |s| && s[at..start] == x.gap && s[start..end] == x.found && s[end..] == rest
  {
    var y := s[at..];
    assert y[..|x.gap|] == x.gap && y[|x.gap|..] == x.found + rest;
    assert s[start..] == y[|x.gap|..] && s[end..] == s[start..][|x.found|..];
  }
}
