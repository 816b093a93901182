/**
  What the bytes of a string stand for, said without decoding: the bytes of a code point are those of the table in
  section 3 of RFC 3629, its code units those of section 2.1 of RFC 2781, and a byte where no code point stands is
  one U+FFFD. Offsets on both sides are sums over these pieces.
 */
module Utf8 {
  import opened Text
  import opened Utf16

  /** A code point that is no surrogate. */
  predicate Scalar(cp: nat) { cp <= 0x10FFFF && !(0xD800 <= cp < 0xE000) }

  /** The bytes of a code point. */
  function Utf8Form(cp: nat): (x: Bytes)
    requires Scalar(cp)
    ensures 1 <= |x| <= 4
  {
    if cp < 0x80 then [cp]
    else if cp < 0x800 then [0xC0 + cp / 0x40, 0x80 + cp % 0x40]
    else if cp < 0x1_0000 then [0xE0 + cp / 0x1000, 0x80 + cp / 0x40 % 0x40, 0x80 + cp % 0x40]
    else [0xF0 + cp / 0x4_0000, 0x80 + cp / 0x1000 % 0x40, 0x80 + cp / 0x40 % 0x40, 0x80 + cp % 0x40]
  }

  /** The code units of a code point: itself, or a pair from which it is told. */
  function Utf16Form(cp: nat): (u: Str)
    requires Scalar(cp)
    ensures cp < 0x1_0000 ==> u == [cp]
    ensures cp >= 0x1_0000 ==> |u| == 2 && 0xD800 <= u[0] < 0xDC00 <= u[1] < 0xE000
    ensures cp >= 0x1_0000 ==> 0x1_0000 + (u[0] as int - 0xD800) * 0x400 + (u[1] as int - 0xDC00) == cp
  {
    if cp < 0x1_0000 then [cp]
    else
      var high, low := (cp - 0x1_0000) / 0x400, (cp - 0x1_0000) % 0x400;
      assert high < 0x400;
      [0xD800 + high, 0xDC00 + low]
  }

  /** The bytes of a code point stand at i. */
  predicate PointAt(s: Bytes, i: nat, cp: nat) {
    Scalar(cp) && At(s, i, Utf8Form(cp))
  }

  // ----- one character -------------------------------------------------------------------------------------

  lemma {:induction false} FormUnits(s: Bytes, i: nat, cp: nat)
    requires PointAt(s, i, cp)
    ensures var x := Utf8Form(cp);
      i + |x| <= |s| && forall k :: 0 <= k < |x| ==> x[k] == s[i + k]
  {
    var x := Utf8Form(cp);
    assert s[i..i + |x|] == x;
    forall k | 0 <= k < |x| ensures x[k] == s[i + k] { assert s[i..i + |x|][k] == s[i + k]; }
  }

  /** Where a code point stands it is read. */
  lemma {:induction false} PointReads(s: Bytes, i: nat, cp: nat)
    requires PointAt(s, i, cp)
    ensures i < |s| && Size(s, i) == |Utf8Form(cp)| && Rune(s, i) == cp
  {
    FormUnits(s, i, cp);
    if cp < 0x80 {
    } else if cp < 0x800 {
      TwoBytes(s, i, cp);
    } else if cp < 0x1_0000 {
      ThreeBytes(s, i, cp);
    } else {
      FourBytes(s, i, cp);
    }
  }

  lemma {:induction false} TwoBytes(s: Bytes, i: nat, cp: nat)
    requires 0x80 <= cp < 0x800 && i + 2 <= |s| && s[i] == 0xC0 + cp / 0x40 && s[i + 1] == 0x80 + cp % 0x40
    ensures Size(s, i) == 2 && Rune(s, i) == cp
  {
  }

  lemma {:induction false} ThreeBytes(s: Bytes, i: nat, cp: nat)
    requires Scalar(cp) && 0x800 <= cp < 0x1_0000 && i + 3 <= |s|
    requires s[i] == 0xE0 + cp / 0x1000 && s[i + 1] == 0x80 + cp / 0x40 % 0x40 && s[i + 2] == 0x80 + cp % 0x40
    ensures Size(s, i) == 3 && Rune(s, i) == cp
  {
    var a, b, c := cp / 0x1000, cp / 0x40 % 0x40, cp % 0x40;
    assert cp == a * 0x1000 + b * 0x40 + c;
    assert SecondFits(s[i], s[i + 1]);
  }

  lemma {:induction false} FourBytes(s: Bytes, i: nat, cp: nat)
    requires Scalar(cp) && 0x1_0000 <= cp && i + 4 <= |s|
    requires s[i] == 0xF0 + cp / 0x4_0000 && s[i + 1] == 0x80 + cp / 0x1000 % 0x40
    requires s[i + 2] == 0x80 + cp / 0x40 % 0x40 && s[i + 3] == 0x80 + cp % 0x40
    ensures Size(s, i) == 4 && Rune(s, i) == cp
  {
    var a, b, c, d := cp / 0x4_0000, cp / 0x1000 % 0x40, cp / 0x40 % 0x40, cp % 0x40;
    SixBits(cp, a, b, c, d);
    FourRead(s, i, cp, a, b, c, d);
  }

  lemma {:induction false} SixBits(cp: nat, a: nat, b: nat, c: nat, d: nat)
    requires Scalar(cp) && 0x1_0000 <= cp
    requires a == cp / 0x4_0000 && b == cp / 0x1000 % 0x40 && c == cp / 0x40 % 0x40 && d == cp % 0x40
    ensures cp == a * 0x4_0000 + b * 0x1000 + c * 0x40 + d && a <= 4 && b < 0x40 && c < 0x40 && d < 0x40
    ensures (a == 0 ==> b >= 0x10) && (a == 4 ==> b < 0x10)
  {
  }

  lemma {:induction false} FourRead(s: Bytes, i: nat, cp: nat, a: nat, b: nat, c: nat, d: nat)
    requires cp == a * 0x4_0000 + b * 0x1000 + c * 0x40 + d && a <= 4 && b < 0x40 && c < 0x40 && d < 0x40
    requires (a == 0 ==> b >= 0x10) && (a == 4 ==> b < 0x10) && i + 4 <= |s|
    requires s[i] == 0xF0 + a && s[i + 1] == 0x80 + b && s[i + 2] == 0x80 + c && s[i + 3] == 0x80 + d
    ensures Size(s, i) == 4 && Rune(s, i) == cp
  {
    assert SecondFits(s[i], s[i + 1]);
  }

  /** What is read stands there, but for U+FFFD read from one byte. */
  lemma {:induction false} ReadStands(s: Bytes, i: nat)
    requires i < |s|
    ensures Rune(s, i) != REPLACEMENT || Size(s, i) != 1 ==> PointAt(s, i, Rune(s, i))
  {
    var cp, n := Rune(s, i), Size(s, i);
    if n == 1 {
      assert cp == REPLACEMENT || s[i..i + 1] == Utf8Form(cp);
    } else if n == 2 {
      FormOfTwo(s[i], s[i + 1], cp);
      assert s[i..i + 2] == [s[i], s[i + 1]];
    } else if n == 3 {
      FormOfThree(s[i], s[i + 1], s[i + 2], cp);
      assert s[i..i + 3] == [s[i], s[i + 1], s[i + 2]];
    } else {
      FormOfFour(s[i], s[i + 1], s[i + 2], s[i + 3], cp);
      assert s[i..i + 4] == [s[i], s[i + 1], s[i + 2], s[i + 3]];
    }
  }

  lemma {:induction false} FormOfTwo(a: Byte, b: Byte, cp: nat)
    requires 0xC2 <= a <= 0xDF && 0x80 <= b < 0xC0 && cp == (a - 0xC0) * 0x40 + (b - 0x80)
    ensures Scalar(cp) && Utf8Form(cp) == [a, b]
  {
  }

  lemma {:induction false} FormOfThree(a: Byte, b: Byte, c: Byte, cp: nat)
    requires 0xE0 <= a <= 0xEF && SecondFits(a, b) && 0x80 <= c < 0xC0
    requires cp == (a - 0xE0) * 0x1000 + (b - 0x80) * 0x40 + (c - 0x80)
    ensures Scalar(cp) && Utf8Form(cp) == [a, b, c]
  {
    assert cp / 0x40 == (a - 0xE0) * 0x40 + (b - 0x80);
  }

  lemma {:induction false} FormOfFour(a: Byte, b: Byte, c: Byte, d: Byte, cp: nat)
    requires 0xF0 <= a <= 0xF4 && SecondFits(a, b) && 0x80 <= c < 0xC0 && 0x80 <= d < 0xC0
    requires cp == (a - 0xF0) * 0x4_0000 + (b - 0x80) * 0x1000 + (c - 0x80) * 0x40 + (d - 0x80)
    ensures Scalar(cp) && Utf8Form(cp) == [a, b, c, d]
  {
    assert cp / 0x40 == (a - 0xF0) * 0x1000 + (b - 0x80) * 0x40 + (c - 0x80);
    assert cp / 0x1000 == (a - 0xF0) * 0x40 + (b - 0x80);
  }

  /** The code point that stands at i is the character there; where none does, one byte is one U+FFFD. */
  lemma {:induction false} CharacterIs(s: Bytes, i: nat)
    requires i < |s|
    ensures forall cp :: PointAt(s, i, cp) ==> Size(s, i) == |Utf8Form(cp)| && Rune(s, i) == cp
    ensures (forall cp :: !PointAt(s, i, cp)) ==> Size(s, i) == 1 && Rune(s, i) == REPLACEMENT
  {
    forall cp | PointAt(s, i, cp) ensures Size(s, i) == |Utf8Form(cp)| && Rune(s, i) == cp { PointReads(s, i, cp); }
    ReadStands(s, i);
  }

  lemma {:induction false} UnitsAreForm(cp: nat)
    requires Scalar(cp)
    ensures Units(cp) == Utf16Form(cp)
  {
  }

  // ----- the whole string ----------------------------------------------------------------------------------

  /** A code point, or a byte that belongs to none. */
  datatype Piece = Point(cp: nat) | Stray {
    predicate Stands(s: Bytes, i: nat) {
      match this
      case Point(cp) => PointAt(s, i, cp)
      case Stray => i < |s|
    }

    function Length(): (n: nat)
      requires Point? ==> Scalar(cp)
      ensures n >= 1
    {
      if Point? then |Utf8Form(cp)| else 1
    }

    function CodeUnits(): (u: Str)
      requires Point? ==> Scalar(cp)
      ensures 1 <= |u| <= 2
    {
      if Point? then Utf16Form(cp) else [0xFFFD]
    }
  }

  ghost predicate NoPointAt(s: Bytes, i: nat) {
    forall cp :: !PointAt(s, i, cp)
  }

  /** The string from byte b on is these pieces; a byte is a piece of its own only where no code point stands. */
  ghost predicate Reads(s: Bytes, b: nat, pieces: seq<Piece>)
    decreases |pieces|
  {
    if pieces == [] then b == |s|
    else
      && pieces[0].Stands(s, b) && (pieces[0].Stray? ==> NoPointAt(s, b))
      && Reads(s, b + pieces[0].Length(), pieces[1..])
  }

  predicate Proper(pieces: seq<Piece>) {
    forall k :: 0 <= k < |pieces| ==> pieces[k].Point? ==> Scalar(pieces[k].cp)
  }

  function LengthOf(pieces: seq<Piece>): nat
    requires Proper(pieces)
  {
    if pieces == [] then 0 else pieces[0].Length() + LengthOf(pieces[1..])
  }

  function UnitsOf(pieces: seq<Piece>): Str
    requires Proper(pieces)
  {
    if pieces == [] then [] else pieces[0].CodeUnits() + UnitsOf(pieces[1..])
  }

  /** The piece at b is the character there. */
  lemma {:induction false} PieceIs(s: Bytes, b: nat, p: Piece)
    requires p.Stands(s, b) && (p.Stray? ==> NoPointAt(s, b))
    ensures b < |s| && Size(s, b) == p.Length() && Units(Rune(s, b)) == p.CodeUnits()
  {
    match p
    case Point(cp) =>
      PointReads(s, b, cp);
      UnitsAreForm(cp);
    case Stray => CharacterIs(s, b);
  }

  /** Every string, whatever its bytes, is read as such pieces. */
  lemma {:induction false} EveryStringReads(s: Bytes, b: nat) returns (pieces: seq<Piece>)
    requires b <= |s|
    ensures Reads(s, b, pieces)
    decreases |s| - b
  {
    if b == |s| { return []; }
    var p := FirstPiece(s, b);
    var rest := EveryStringReads(s, b + p.Length());
    pieces := [p] + rest;
  }

  lemma {:induction false} FirstPiece(s: Bytes, b: nat) returns (p: Piece)
    requires b < |s|
    ensures p.Stands(s, b) && (p.Stray? ==> NoPointAt(s, b)) && b + p.Length() <= |s|
  {
    if NoPointAt(s, b) {
      p := Stray;
    } else {
      var cp :| PointAt(s, b, cp);
      PointReads(s, b, cp);
      p := Point(cp);
    }
  }

  lemma {:induction false} ReadsProper(s: Bytes, b: nat, pieces: seq<Piece>)
    requires Reads(s, b, pieces)
    ensures Proper(pieces) && b + LengthOf(pieces) == |s|
    decreases |pieces|
  {
    if pieces != [] {
      ReadsProper(s, b + pieces[0].Length(), pieces[1..]);
      assert forall k :: 0 < k < |pieces| ==> pieces[k] == pieces[1..][k - 1];
    }
  }

  /** The UTF-16 text of a string is the code units of its pieces, one after another. */
  lemma {:induction false} EncodedPieces(s: Bytes, b: nat, pieces: seq<Piece>)
    requires Reads(s, b, pieces)
    ensures Proper(pieces) && b <= |s| && Encoded(s, b) == UnitsOf(pieces)
    decreases |pieces|
  {
    ReadsProper(s, b, pieces);
    if pieces != [] {
      PieceIs(s, b, pieces[0]);
      EncodedPieces(s, b + pieces[0].Length(), pieces[1..]);
    }
  }

  // ----- offsets -------------------------------------------------------------------------------------------

  /** An offset in piece k is that of its start on either side. */
  ghost predicate OffsetsAgree(s: Bytes, b: nat, pieces: seq<Piece>, k: nat)
    requires b <= |s| && Proper(pieces) && k < |pieces|
  {
    var bytes, units := b + LengthOf(pieces[..k]), |UnitsOf(pieces[..k])|;
    && (forall off: nat :: bytes <= off < bytes + pieces[k].Length() && off <= |s| ==>
      Floor(s, b, off) == bytes && Count(s, b, bytes) == units)
    && (forall u: nat :: units <= u < units + |pieces[k].CodeUnits()| ==> ByteOf(s, b, u) == bytes)
  }

  lemma {:induction false} PieceOffsets(s: Bytes, b: nat, pieces: seq<Piece>, k: nat)
    requires Reads(s, b, pieces) && k < |pieces|
    ensures Proper(pieces) && b <= |s| && OffsetsAgree(s, b, pieces, k)
    decreases k
  {
    ReadsProper(s, b, pieces);
    PieceIs(s, b, pieces[0]);
    if k == 0 {
      assert pieces[..0] == [];
    } else {
      var next := b + pieces[0].Length();
      PieceOffsets(s, next, pieces[1..], k - 1);
      assert pieces[..k][1..] == pieces[1..][..k - 1] && pieces[..k][0] == pieces[0];
      OffsetsBehind(s, b, pieces, k, next);
    }
  }

  lemma {:induction false} OffsetsBehind(s: Bytes, b: nat, pieces: seq<Piece>, k: nat, next: nat)
    requires b < |s| && Proper(pieces) && 0 < k < |pieces| && next == b + pieces[0].Length() <= |s|
    requires Size(s, b) == pieces[0].Length() && UnitCount(s, b) == |pieces[0].CodeUnits()|
    requires Proper(pieces[1..]) && OffsetsAgree(s, next, pieces[1..], k - 1)
    requires pieces[..k][1..] == pieces[1..][..k - 1] && pieces[..k][0] == pieces[0]
    ensures OffsetsAgree(s, b, pieces, k)
  {
    var rest, first := pieces[1..], |pieces[0].CodeUnits()|;
    var bytes, units := next + LengthOf(rest[..k - 1]), |UnitsOf(rest[..k - 1])|;
    assert b + LengthOf(pieces[..k]) == bytes && |UnitsOf(pieces[..k])| == first + units && bytes >= next;
    forall off: nat | bytes <= off < bytes + pieces[k].Length() && off <= |s|
      ensures Floor(s, b, off) == bytes && Count(s, b, bytes) == first + units
    {
      FloorNext(s, b, next, off, bytes);
    }
    forall u: nat | first + units <= u < first + units + |pieces[k].CodeUnits()| ensures ByteOf(s, b, u) == bytes {
      ByteNext(s, b, next, first, u);
    }
  }

  lemma {:induction false} FloorNext(s: Bytes, b: nat, next: nat, off: nat, to: nat)
    requires b < |s| && next == b + Size(s, b) && next <= to <= off <= |s|
    ensures Floor(s, b, off) == Floor(s, next, off) && Count(s, b, to) == UnitCount(s, b) + Count(s, next, to)
  {
  }

  lemma {:induction false} ByteNext(s: Bytes, b: nat, next: nat, first: nat, u: nat)
    requires b < |s| && next == b + Size(s, b) && first == UnitCount(s, b) <= u
    ensures ByteOf(s, b, u) == ByteOf(s, next, u - first)
  {
  }

  /**
    Offsets, told from the pieces: every byte of piece k stands for the sum of the units before it, and every unit
    of piece k for the sum of the bytes before it.
   */
  lemma {:induction false} OffsetsOfPieces(s: Bytes, pieces: seq<Piece>, k: nat)
    requires Reads(s, 0, pieces) && k < |pieces|
    ensures Proper(pieces)
    ensures var bytes, units := LengthOf(pieces[..k]), |UnitsOf(pieces[..k])|;
      && (forall off :: bytes <= off < bytes + pieces[k].Length() ==> ToUtf16(s, off) == units)
      && (forall u :: units <= u < units + |pieces[k].CodeUnits()| ==> ToByte(s, u) == bytes)
    ensures ToUtf16(s, LengthOf(pieces)) == |UnitsOf(pieces)| && ToByte(s, |UnitsOf(pieces)|) == LengthOf(pieces)
  {
    ReadsProper(s, 0, pieces);
    PieceEnds(pieces, k);
    PieceOffsets(s, 0, pieces, k);
    EndOffsets(s, pieces);
  }

  lemma {:induction false} PieceEnds(pieces: seq<Piece>, k: nat)
    requires Proper(pieces) && k < |pieces|
    ensures LengthOf(pieces[..k]) + pieces[k].Length() <= LengthOf(pieces)
    decreases k
  {
    if k > 0 {
      PieceEnds(pieces[1..], k - 1);
      assert pieces[..k][1..] == pieces[1..][..k - 1];
    }
  }

  lemma {:induction false} EndOffsets(s: Bytes, pieces: seq<Piece>)
    requires Reads(s, 0, pieces)
    ensures Proper(pieces)
    ensures ToUtf16(s, LengthOf(pieces)) == |UnitsOf(pieces)| && ToByte(s, |UnitsOf(pieces)|) == LengthOf(pieces)
  {
    ReadsProper(s, 0, pieces);
    EncodedPieces(s, 0, pieces);
    PastTheEnd(s, 0, |UnitsOf(pieces)|);
    EndCount(s, 0);
  }

  lemma {:induction false} EndCount(s: Bytes, b: nat)
    requires b <= |s|
    ensures Floor(s, b, |s|) == |s| && Count(s, b, |s|) == |Encoded(s, b)|
    decreases |s| - b
  {
    if b < |s| { EndCount(s, b + Size(s, b)); }
  }
}
