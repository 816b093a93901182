/** When a comment put around a text makes one of md-memo's own markers of it. */
module CommentMarkers {
  import opened Text
  import opened Markers
  import opened CommentToggle

  lemma {:induction false} BlockTextUnits(inner: Str, k: nat)
    ensures |BlockText(inner)| == |inner| + 9
    ensures k < 5 ==> BlockText(inner)[k] == OPEN[k]
    ensures k < |inner| ==> BlockText(inner)[5 + k] == inner[k]
    ensures k < 4 ==> BlockText(inner)[|inner| + 5 + k] == CLOSE[k]
  {
  }

  lemma {:induction false} ClosingHasNoColon(core: Str, i: nat, x: Str)
    requires i < |core| + 9 && x == BlockText(core)[i..]
    ensures forall j :: |core| + 5 - i <= j < |x| && 0 <= j ==> x[j] != COLON
  {
    forall j | |core| + 5 - i <= j < |x| && 0 <= j ensures x[j] != COLON {
      BlockTextUnits(core, i + j - |core| - 5);
    }
  }

  /** A marker ends with a colon, so it ends before the last units when those are none. */
  lemma {:induction false} MarkerInside(x: Str, n: int)
    requires MarkerHere(x) && n <= |x| && forall j :: n <= j < |x| && 0 <= j ==> x[j] != COLON
    ensures NameIndex(x) + 8 <= n
  {
    var m := NameIndex(x);
    assert x[m..m + 8][7] == MD_MEMO[7];
    assert x[m + 7] == COLON && m + 8 <= |x|;
  }

  /** Of a text without a marker only the opening can make one. */
  lemma {:induction false} OnlyOpeningMarks(core: Str)
    requires !HasMarker(core) && HasMarker(BlockText(core))
    ensures MarkerHere(BlockText(core))
  {
    var x := BlockText(core);
    var i :| 0 <= i < |x| && MarkerAt(x, i);
    assert x[0..] == x;
    assert i == 0 by { MarkerStarts(core, i); }
  }

  lemma {:induction false} MarkerStarts(core: Str, i: nat)
    requires !HasMarker(core) && i < |BlockText(core)| && MarkerAt(BlockText(core), i)
    ensures i == 0
  {
    var x := BlockText(core);
    assert x[i] == LESS;
    BlockTextUnits(core, i);
    if i >= 5 { MarkerInCore(core, i); }
  }

  /** A marker behind the opening is one of the text itself. */
  lemma {:induction false} MarkerInCore(core: Str, i: nat)
    requires 5 <= i < |BlockText(core)| && MarkerAt(BlockText(core), i)
    ensures HasMarker(core)
  {
    var x, n := BlockText(core), |core| + 5 - i;
    var y := x[i..];
    ClosingHasNoColon(core, i, y);
    MarkerInside(y, n);
    var m := NameIndex(y) + 8;
    assert forall k :: 0 <= k < m ==> core[i - 5..][k] == y[k];
    MarkerAgree(y, core[i - 5..], m);
    assert MarkerAt(core, i - 5);
  }

  lemma {:induction false} BehindBlanks(left: Str, x: Str)
    requires HasMarker(left + x) && forall k :: 0 <= k < |left| ==> left[k] != LESS
    ensures HasMarker(x)
  {
    var s, n := left + x, |left|;
    var i :| 0 <= i < |s| && MarkerAt(s, i);
    assert s[i] == LESS;
    assert i >= n && s[i..] == x[i - n..];
    assert MarkerAt(x, i - n);
  }

  /** A marker stands where the text that starts with it does. */
  lemma {:induction false} MarkerPlaced(t: Str, p: nat, x: Str)
    requires MarkerHere(x) && p + |x| <= |t| && t[p..p + |x|] == x
    ensures MarkerAt(t, p)
  {
    assert t[p..][..|x|] == x;
    PrefixMarker(x, t[p..]);
  }
}
