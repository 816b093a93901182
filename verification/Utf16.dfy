/**
  Go strings and the UTF-16 text the page sees: a Go string is any sequence of bytes, read as UTF-8 (section 3
  of RFC 3629) with every invalid byte standing for U+FFFD; the page counts in UTF-16 code units (section 2.1
  of RFC 2781). Offsets on both sides are turned into each other here.
 */
module Utf16 {
  import opened Text

  type Byte = b: int | 0 <= b < 0x100
  type Bytes = seq<Byte>

  const REPLACEMENT: CodeUnit := 0xFFFD

  // ----- one character -------------------------------------------------------------------------------------

  predicate Continues(s: Bytes, i: nat) {
    i < |s| && 0x80 <= s[i] < 0xC0
  }

  /** The second byte a three- or four-byte character may have after its first. */
  predicate SecondFits(first: Byte, second: Byte) {
    && 0x80 <= second < 0xC0
    && (first == 0xE0 ==> second >= 0xA0) && (first == 0xED ==> second < 0xA0)
    && (first == 0xF0 ==> second >= 0x90) && (first == 0xF4 ==> second < 0x90)
  }

  /** How many bytes the character at i takes; a byte that starts no valid character stands alone. */
  function Size(s: Bytes, i: nat): (n: nat)
    requires i < |s|
    ensures 1 <= n <= 4 && i + n <= |s|
  {
    var c := s[i];
    if 0xC2 <= c <= 0xDF && Continues(s, i + 1) then 2
    else if 0xE0 <= c <= 0xEF && i + 1 < |s| && SecondFits(c, s[i + 1]) && Continues(s, i + 2) then 3
    else if 0xF0 <= c <= 0xF4 && i + 1 < |s| && SecondFits(c, s[i + 1]) && Continues(s, i + 2) && Continues(s, i + 3)
      then 4
    else 1
  }

  /** The code point of the character at i. */
  function Rune(s: Bytes, i: nat): (r: nat)
    requires i < |s|
    ensures r <= 0x10FFFF && !(0xD800 <= r < 0xE000)
    ensures Size(s, i) == 4 <==> r >= 0x10000
  {
    var c := s[i];
    match Size(s, i)
    case 2 => (c - 0xC0) * 0x40 + (s[i + 1] - 0x80)
    case 3 => (c - 0xE0) * 0x1000 + (s[i + 1] - 0x80) * 0x40 + (s[i + 2] - 0x80)
    case 4 => (c - 0xF0) * 0x40000 + (s[i + 1] - 0x80) * 0x1000 + (s[i + 2] - 0x80) * 0x40 + (s[i + 3] - 0x80)
    case _ => if c < 0x80 then c else REPLACEMENT
  }

  /** The code units of a code point. */
  function Units(r: nat): (u: Str)
    requires r <= 0x10FFFF
    ensures |u| == if r >= 0x10000 then 2 else 1
  {
    if r < 0x10000 then [r] else [0xD800 + (r - 0x10000) / 0x400, 0xDC00 + (r - 0x10000) % 0x400]
  }

  function UnitCount(s: Bytes, i: nat): (n: nat)
    requires i < |s|
    ensures n == |Units(Rune(s, i))|
  {
    if Rune(s, i) >= 0x10000 then 2 else 1
  }

  // ----- the whole string ----------------------------------------------------------------------------------

  /** The UTF-16 text of a string from byte b on. */
  function Encoded(s: Bytes, b: nat): Str
    requires b <= |s|
    decreases |s| - b
  {
    if b == |s| then [] else Units(Rune(s, b)) + Encoded(s, b + Size(s, b))
  }

  /** The start of the character that holds byte off, reading from b. */
  function Floor(s: Bytes, b: nat, off: nat): (f: nat)
    requires b <= off <= |s|
    ensures b <= f <= off
    decreases |s| - b
  {
    if b < |s| && b + Size(s, b) <= off then Floor(s, b + Size(s, b), off) else b
  }

  /** A character starts at off, or the string ends there. */
  predicate Boundary(s: Bytes, off: nat) {
    off <= |s| && Floor(s, 0, off) == off
  }

  /** How many code units the characters take that start at a and end by b. */
  function Count(s: Bytes, a: nat, b: nat): nat
    requires a <= |s|
    decreases |s| - a
  {
    if a >= b || a == |s| then 0 else UnitCount(s, a) + Count(s, a + Size(s, a), b)
  }

  /** The UTF-16 index of a byte offset; inside a character it is that of its start. */
  function ToUtf16(s: Bytes, off: int): nat {
    Count(s, 0, Floor(s, 0, Clamp(off, |s|)))
  }

  /** The byte offset of the character that holds the idx-th unit from b. */
  function ByteOf(s: Bytes, b: nat, idx: int): (r: nat)
    requires b <= |s|
    ensures b <= r <= |s|
    decreases |s| - b
  {
    if b == |s| || UnitCount(s, b) > idx then b else ByteOf(s, b + Size(s, b), idx - UnitCount(s, b))
  }

  function ToByte(s: Bytes, idx: int): (r: nat)
    ensures r <= |s|
  {
    ByteOf(s, 0, idx)
  }

  method Utf16ToByte(s: Bytes, idx: int) returns (r: nat)
    ensures r == ToByte(s, idx)
  {
    if idx <= 0 { return 0; }
    var u, b := 0, 0;
    ghost var whole := ByteOf(s, 0, idx);
    while b < |s|
      invariant b <= |s| && u <= idx
      invariant ByteOf(s, b, idx - u) == whole
      decreases |s| - b
    {
      var n := UnitCount(s, b);
      if u + n > idx { return b; }
      assert ByteOf(s, b, idx - u) == ByteOf(s, b + Size(s, b), idx - (u + n));
      u, b := u + n, b + Size(s, b);
    }
    r := |s|;
  }

  // ----- character starts ----------------------------------------------------------------------------------

  /** Reading may go on from any character start instead of the beginning. */
  lemma {:induction false} FloorFrom(s: Bytes, b: nat, m: nat, off: nat)
    requires b <= m <= off <= |s| && Floor(s, b, m) == m
    ensures Floor(s, b, off) == Floor(s, m, off)
    decreases |s| - b
  {
    if b < m { FloorFrom(s, b + Size(s, b), m, off); }
  }

  /** The rounded offset is a character start, and there is none between it and the offset. */
  lemma {:induction false} FloorStops(s: Bytes, b: nat, off: nat, f: nat)
    requires b <= off <= |s| && f == Floor(s, b, off)
    ensures Floor(s, b, f) == f
    ensures forall m :: f < m <= off ==> Floor(s, b, m) != m
    ensures f < |s| && f < off ==> off < f + Size(s, f)
    decreases |s| - b
  {
    if b < |s| && b + Size(s, b) <= off {
      var next := b + Size(s, b);
      FloorStops(s, next, off, f);
      assert Floor(s, b, f) == Floor(s, next, f);
      forall m | f < m <= off ensures Floor(s, b, m) != m { assert Floor(s, b, m) == Floor(s, next, m); }
    }
  }

  /** ToUtf16 rounds down: the offset's character starts at the greatest boundary not after it. */
  lemma {:induction false} RoundsDown(s: Bytes, off: nat) returns (f: nat)
    requires off <= |s|
    ensures f <= off && Boundary(s, f) && (forall m :: f < m <= off ==> !Boundary(s, m)) &&
      ToUtf16(s, off) == ToUtf16(s, f)
  {
    f := Floor(s, 0, off);
    FloorStops(s, 0, off, f);
  }

  lemma {:induction false} CountSplit(s: Bytes, a: nat, m: nat, b: nat)
    requires a <= m <= b <= |s| && Floor(s, a, m) == m
    ensures Count(s, a, b) == Count(s, a, m) + Count(s, m, b)
    decreases |s| - a
  {
    if a < m { CountSplit(s, a + Size(s, a), m, b); }
  }

  lemma {:induction false} EncodedSplit(s: Bytes, a: nat, m: nat)
    requires a <= m <= |s| && Floor(s, a, m) == m
    ensures |Encoded(s, a)| == Count(s, a, m) + |Encoded(s, m)|
    ensures Encoded(s, a)[Count(s, a, m)..] == Encoded(s, m)
    decreases |s| - a
  {
    if a < m {
      var next, u := a + Size(s, a), Units(Rune(s, a));
      EncodedSplit(s, next, m);
      var rest := Encoded(s, next);
      assert Encoded(s, a) == u + rest;
      DropBoth(u, rest, Count(s, next, m));
    }
  }

  lemma {:induction false} DropBoth(u: Str, rest: Str, n: nat)
    requires n <= |rest|
    ensures (u + rest)[|u| + n..] == rest[n..]
  {
  }

  // ----- offsets keep their meaning ------------------------------------------------------------------------

  /** A character that ends by b reads the same when everything outside [a, b) is cut off. */
  lemma {:induction false} SameCharacter(s: Bytes, a: nat, b: nat, i: nat)
    requires a <= i < b <= |s| && i + Size(s, i) <= b
    ensures Size(s[a..b], i - a) == Size(s, i) && Rune(s[a..b], i - a) == Rune(s, i)
  {
    var t, k := s[a..b], i - a;
    assert forall j :: 0 <= j < |t| ==> t[j] == s[a + j];
    assert Size(t, k) == Size(s, i);
  }

  /** The text of a slice between character starts is what the text of the whole holds there. */
  lemma {:induction false} EncodedSlice(s: Bytes, a: nat, b: nat, i: nat, t: Bytes)
    requires a <= i <= b <= |s| && t == s[a..b] && Floor(s, i, b) == b
    ensures var n := Count(s, i, b);
      n <= |Encoded(s, i)| && Encoded(s, i)[..n] == Encoded(t, i - a)
    decreases b - i
  {
    if i < b {
      var next, u := i + Size(s, i), Units(Rune(s, i));
      EncodedSlice(s, a, b, next, t);
      SliceStep(s, a, b, i, t);
      TakeBoth(u, Encoded(s, next), Count(s, next, b));
    }
  }

  lemma {:induction false} SliceStep(s: Bytes, a: nat, b: nat, i: nat, t: Bytes)
    requires a <= i < b <= |s| && t == s[a..b] && i + Size(s, i) <= b
    ensures Encoded(t, i - a) == Units(Rune(s, i)) + Encoded(t, i + Size(s, i) - a)
  {
    SameCharacter(s, a, b, i);
  }

  lemma {:induction false} TakeBoth(u: Str, rest: Str, n: nat)
    requires n <= |rest|
    ensures (u + rest)[..|u| + n] == u + rest[..n]
  {
  }

  /**
    Offsets keep their meaning: cutting the UTF-16 text at the indices of two character starts gives the UTF-16
    text of the bytes between them, whatever the bytes are.
   */
  lemma {:induction false} CutsAgree(s: Bytes, a: nat, b: nat)
    requires a <= b && Boundary(s, a) && Boundary(s, b)
    ensures ToUtf16(s, a) <= ToUtf16(s, b) <= |Encoded(s, 0)|
    ensures Encoded(s, 0)[ToUtf16(s, a)..ToUtf16(s, b)] == Encoded(s[a..b], 0)
  {
    FloorFrom(s, 0, a, b);
    CountSplit(s, 0, a, b);
    EncodedSplit(s, 0, a);
    EncodedSlice(s, a, b, a, s[a..b]);
    CutTwice(Encoded(s, 0), Encoded(s, a), Encoded(s[a..b], 0), Count(s, 0, a), Count(s, a, b));
  }

  lemma {:induction false} CutTwice(t: Str, tail: Str, piece: Str, i: nat, n: nat)
    requires i <= |t| && t[i..] == tail && n <= |tail| && tail[..n] == piece
    ensures i + n <= |t| && t[i..i + n] == piece
  {
    assert t[i..][..n] == t[i..i + n];
  }

  /** From bytes to units and back gives the start of the character. */
  lemma {:induction false} ByteOfCount(s: Bytes, b: nat, f: nat)
    requires b <= f <= |s| && Floor(s, b, f) == f
    ensures ByteOf(s, b, Count(s, b, f)) == f
    decreases |s| - b
  {
    if b < f { ByteOfCount(s, b + Size(s, b), f); }
  }

  lemma {:induction false} BackToByte(s: Bytes, off: int)
    ensures ToByte(s, ToUtf16(s, off)) == Floor(s, 0, Clamp(off, |s|))
  {
    var f := Floor(s, 0, Clamp(off, |s|));
    FloorStops(s, 0, Clamp(off, |s|), f);
    ByteOfCount(s, 0, f);
  }

  predicate LowSurrogate(c: CodeUnit) { 0xDC00 <= c < 0xE000 }

  /** From units to bytes and back: the index itself, unless it is inside a surrogate pair. */
  lemma {:induction false} CountOfByte(s: Bytes, b: nat, idx: nat)
    requires b <= |s| && idx <= |Encoded(s, b)|
    ensures var r := ByteOf(s, b, idx);
      && Floor(s, b, r) == r
      && Count(s, b, r) == if 0 < idx < |Encoded(s, b)| && LowSurrogate(Encoded(s, b)[idx]) then idx - 1 else idx
    decreases |s| - b
  {
    if b < |s| {
      var n, rest := UnitCount(s, b), Encoded(s, b + Size(s, b));
      assert Encoded(s, b) == Units(Rune(s, b)) + rest;
      if n <= idx {
        CountOfByte(s, b + Size(s, b), idx - n);
        if idx == n && rest != [] { FirstUnit(s, b + Size(s, b)); }
      }
    }
  }

  lemma {:induction false} FirstUnit(s: Bytes, b: nat)
    requires b < |s|
    ensures Encoded(s, b) != [] && !LowSurrogate(Encoded(s, b)[0])
  {
  }

  /** ToByte and ToUtf16 are inverse to each other; an index comes back changed only from inside a surrogate pair. */
  lemma {:induction false} BackToUtf16(s: Bytes, idx: nat)
    requires idx <= |Encoded(s, 0)|
    ensures Boundary(s, ToByte(s, idx))
    ensures ToUtf16(s, ToByte(s, idx)) == idx <==> !(0 < idx < |Encoded(s, 0)| && LowSurrogate(Encoded(s, 0)[idx]))
    ensures idx - 1 <= ToUtf16(s, ToByte(s, idx)) <= idx
  {
    CountOfByte(s, 0, idx);
  }

  /** An index past the end stands for the end. */
  lemma {:induction false} PastTheEnd(s: Bytes, b: nat, idx: nat)
    requires b <= |s| && idx >= |Encoded(s, b)|
    ensures ByteOf(s, b, idx) == |s|
    decreases |s| - b
  {
    if b < |s| { PastTheEnd(s, b + Size(s, b), idx - UnitCount(s, b)); }
  }

  // ----- text of ASCII characters --------------------------------------------------------------------------

  predicate Ascii(s: Bytes) {
    forall i :: 0 <= i < |s| ==> s[i] < 0x80
  }

  lemma {:induction false} AsciiIdentity(s: Bytes, b: nat, off: nat)
    requires Ascii(s) && b <= off <= |s|
    ensures Floor(s, b, off) == off && Count(s, b, off) == off - b
    decreases off - b
  {
    if b < off { AsciiIdentity(s, b + 1, off); }
  }

  // ----- the cursor ----------------------------------------------------------------------------------------

  /** How many characters start in [a, b). */
  function Characters(s: Bytes, a: nat, b: nat): nat
    requires a <= |s|
    decreases |s| - a
  {
    if a >= b || a == |s| then 0 else 1 + Characters(s, a + Size(s, a), b)
  }

  /**
    How often a query for a byte offset decodes a character when the cursor stands at `from`: once for each it
    passes, and once more for the one that holds the offset, when that is inside a character.
   */
  function Decodes(s: Bytes, from: nat, off: nat): nat
    requires from <= |s| && off <= |s|
  {
    var start := if off < from then 0 else from;
    Characters(s, start, Floor(s, 0, off)) + if Boundary(s, off) then 0 else 1
  }

  /** Remembers the last position it resolved; `decoded` is history. */
  class Cursor {
    const s: Bytes
    const ascii: bool
    var b: nat
    var u: nat
    ghost var decoded: nat

    ghost predicate Valid()
      reads this
    {
      Boundary(s, b) && u == Count(s, 0, b) && (ascii ==> Ascii(s))
    }

    constructor (text: Bytes)
      ensures Valid() && s == text && b == 0 && decoded == 0
    {
      s := text;
      var plain, i := true, 0;
      while i < |text|
        invariant i <= |text| && plain == (forall k :: 0 <= k < i ==> text[k] < 0x80)
      {
        if text[i] >= 0x80 {
          plain := false;
          break;
        }
        i := i + 1;
      }
      ascii, b, u, decoded := plain, 0, 0, 0;
    }

    /** One character further. */
    method Advance()
      requires Valid() && b < |s|
      modifies this`b, this`u
      ensures Valid() && b == old(b + Size(s, b))
    {
      Forward(s, b);
      b, u := b + Size(s, b), u + UnitCount(s, b);
    }

    /** The answer does not depend on what was asked before; text that is not all ASCII is decoded as `Decodes` says. */
    method ToUtf16At(off: int) returns (r: nat)
      requires Valid()
      modifies this
      ensures Valid() && r == ToUtf16(s, off)
      ensures if off <= 0 || ascii then b == old(b) && decoded == old(decoded)
        else b == Floor(s, 0, Clamp(off, |s|)) && decoded == old(decoded) + Decodes(s, old(b), Clamp(off, |s|))
    {
      if off <= 0 { return 0; }
      var to: nat := if off > |s| then |s| else off;
      if ascii {
        AsciiIdentity(s, 0, to);
        return to;
      }
      if to < b { b, u := 0, 0; }
      FloorFrom(s, 0, b, to);
      FloorStops(s, 0, to, Floor(s, 0, to));
      PassTo(to, Floor(s, 0, to));
      r := u;
    }

    /** Passes the characters that end by `to`. */
    method PassTo(to: nat, ghost stop: nat)
      requires Valid() && b <= to <= |s| && stop == Floor(s, b, to)
      modifies this
      ensures Valid() && b == stop
      ensures decoded == old(decoded) + Characters(s, old(b), stop) + if stop == to then 0 else 1
    {
      while b < to
        invariant b <= stop && Valid() && Floor(s, b, to) == stop
        invariant decoded + Characters(s, b, stop) == old(decoded) + Characters(s, old(b), stop)
        decreases |s| - b
      {
        decoded := decoded + 1;
        if b + Size(s, b) > to { break; }
        Advance();
      }
    }
  }

  lemma {:induction false} CharactersSplit(s: Bytes, a: nat, m: nat, b: nat)
    requires a <= m <= b <= |s| && Floor(s, a, m) == m
    ensures Characters(s, a, b) == Characters(s, a, m) + Characters(s, m, b)
    decreases |s| - a
  {
    if a < m { CharactersSplit(s, a + Size(s, a), m, b); }
  }

  ghost predicate AscendingIn(s: Bytes, offs: seq<nat>) {
    forall i :: 0 <= i < |offs| ==> offs[i] <= |s| && (i > 0 ==> offs[i - 1] <= offs[i])
  }

  /** Where the cursor stands after the first i queries. */
  function Stands(s: Bytes, offs: seq<nat>, i: nat): (b: nat)
    requires i <= |offs| && forall j :: 0 <= j < |offs| ==> offs[j] <= |s|
    ensures b <= |s|
  {
    if i == 0 then 0 else Floor(s, 0, offs[i - 1])
  }

  /** How many characters the first i queries decode. */
  function DecodesSoFar(s: Bytes, offs: seq<nat>, i: nat): nat
    requires i <= |offs| && forall j :: 0 <= j < |offs| ==> offs[j] <= |s|
  {
    if i == 0 then 0 else DecodesSoFar(s, offs, i - 1) + Decodes(s, Stands(s, offs, i - 1), offs[i - 1])
  }

  /** Asked twice, in order, for an offset inside a character, the cursor decodes that character twice. */
  lemma {:induction false} DecodedTwice(s: Bytes, offs: seq<nat>)
    requires s == [0xE3, 0x81, 0x82] && offs == [1, 1]
    ensures AscendingIn(s, offs) && DecodesSoFar(s, offs, 2) == 2
  {
    assert Size(s, 0) == 3;
    assert Floor(s, 0, 1) == 0 && Decodes(s, 0, 1) == 1;
    assert DecodesSoFar(s, offs, 1) == 1;
  }

  /** How many of the first i queries are for an offset inside a character. */
  function InsideSoFar(s: Bytes, offs: seq<nat>, i: nat): nat
    requires i <= |offs|
  {
    if i == 0 then 0 else InsideSoFar(s, offs, i - 1) + if Boundary(s, offs[i - 1]) then 0 else 1
  }

  /**
    Ascending offsets: every character before the last one asked about is decoded once, and once more for each query
    inside a character.
   */
  lemma {:induction false} AscendingDecodes(s: Bytes, offs: seq<nat>, i: nat)
    requires AscendingIn(s, offs) && i <= |offs|
    ensures DecodesSoFar(s, offs, i) == Characters(s, 0, Stands(s, offs, i)) + InsideSoFar(s, offs, i)
  {
    if i > 0 {
      AscendingDecodes(s, offs, i - 1);
      var from, off := Stands(s, offs, i - 1), offs[i - 1];
      assert from <= off && Floor(s, 0, from) == from by {
        if i > 1 { FloorStops(s, 0, offs[i - 2], from); }
      }
      FloorFrom(s, 0, from, off);
      CharactersSplit(s, 0, from, Floor(s, 0, off));
    }
  }

  /** One character further is a character start again. */
  lemma {:induction false} Forward(s: Bytes, b: nat)
    requires Boundary(s, b) && b < |s|
    ensures var next := b + Size(s, b);
      Boundary(s, next) && Count(s, 0, next) == Count(s, 0, b) + UnitCount(s, b)
  {
    var next := b + Size(s, b);
    FloorFrom(s, 0, b, next);
    CountSplit(s, 0, b, next);
  }

  method ByteToUtf16(s: Bytes, off: int) returns (r: nat)
    ensures r == ToUtf16(s, off)
  {
    var c := new Cursor(s);
    r := c.ToUtf16At(off);
  }
}
