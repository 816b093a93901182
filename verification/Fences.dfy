/**
  Fenced code blocks: the line rule, the incremental scanner the task finder uses, and what it must agree
  with. The fence rules are those of section 4.5 of the CommonMark Spec, as far as the notes use them.
 */
module Fences {
  import opened Text

  const BACKTICK: CodeUnit := 0x60
  const TILDE: CodeUnit := 0x7E

  /** An opening or closing fence: its character, how many of them, and what follows on the line. */
  datatype Fence = Fence(ch: CodeUnit, len: nat, rest: Str)

  /** What a dot in a regular expression does not match. */
  predicate IsTerminator(c: CodeUnit) { c == LF || c == CR || c == 0x2028 || c == 0x2029 }

  /** At most three spaces, at least three backticks or tildes, and no backtick behind backticks. */
  function FenceLine(line: Str): Option<Fence> {
    var i := RunEnd(line, 0, c => c == SPACE);
    if i > 3 || i == |line| || (line[i] != BACKTICK && line[i] != TILDE) then None
    else
      var ch := line[i];
      var e := RunEnd(line, i, c => c == ch);
      var rest := line[e..];
      if e - i < 3 || (exists k :: 0 <= k < |rest| && IsTerminator(rest[k])) then None
      else if ch == BACKTICK && BACKTICK in rest then None
      else Some(Fence(ch, e - i, rest))
  }

  /** The line that starts at ls, without its line feed and a carriage return before it. */
  function LineAt(text: Str, ls: nat): Str
    requires ls <= |text|
  {
    text[ls..LineEnd(text, ls)]
  }

  /** The fence, if any, on the line that starts at an index of a text. */
  type FenceAt = nat -> Option<Fence>

  function FencesOf(text: Str): FenceAt {
    (ls: nat) => if ls <= |text| then FenceLine(LineAt(text, ls)) else None
  }

  /** A fence on a line closes an open one: the same character, at least as many, and nothing else. */
  predicate Closes(open: Fence, line: Option<Fence>) {
    line.Some? && line.value.ch == open.ch && line.value.len >= open.len && Trim(line.value.rest) == []
  }

  /** What one line does to the fence that is open before it. */
  function Step(open: Option<Fence>, line: Option<Fence>): Option<Fence> {
    match open
    case Some(f) => if Closes(f, line) then None else open
    case None => line
  }

  predicate IsLineStart(text: Str, ls: nat) {
    ls <= |text| && (ls == 0 || text[ls - 1] == LF)
  }

  /** The fold over the lines from the start: the fence open before the line that starts at ls. */
  function OpenBefore(text: Str, fences: FenceAt, ls: nat): Option<Fence>
    requires IsLineStart(text, ls)
    decreases ls
  {
    if ls == 0 then None
    else
      var p := LineStart(text, ls - 1);
      Step(OpenBefore(text, fences, p), fences(p))
  }

  /** An index is in a fence when one is open before its line, or its line is a fence itself. */
  predicate InFence(text: Str, fences: FenceAt, idx: nat)
    requires idx <= |text|
  {
    var ls := LineStart(text, idx);
    OpenBefore(text, fences, ls).Some? || fences(ls).Some?
  }

  /** What is asked, for an index of the text. */
  function AskedOf(text: Str, fences: FenceAt): nat -> bool {
    (idx: nat) => idx <= |text| && InFence(text, fences, idx)
  }

  /**
    How often a query reads the line that starts at m, when the scanner stands at `from` and the queried line starts
    at ls: once when it passes it, and once more as the queried line itself when no fence is open there.
   */
  function ReadsOf(text: Str, fences: FenceAt, from: nat, ls: nat, m: nat): nat
    requires IsLineStart(text, ls)
  {
    (if (if ls < from then 0 else from) <= m < ls then 1 else 0) +
    (if m == ls && OpenBefore(text, fences, ls).None? then 1 else 0)
  }

  /** One query reads what it reads, each line as often as `ReadsOf` says. */
  ghost predicate ReadMore(before: multiset<nat>, after: multiset<nat>, text: Str, fences: FenceAt, from: nat, ls: nat)
    requires IsLineStart(text, ls)
  {
    forall m: nat :: IsLineStart(text, m) ==> after[m] == before[m] + ReadsOf(text, fences, from, ls, m)
  }

  /** The scanner remembers the last line it came to and the fence open there; `seen` is history: the lines read. */
  class FenceScanner {
    const text: Str
    const fences: FenceAt
    var pos: nat
    var open: Option<Fence>
    ghost var seen: multiset<nat>

    ghost predicate Valid()
      reads this
    {
      IsLineStart(text, pos) && open == OpenBefore(text, fences, pos)
    }

    constructor (t: Str, lines: FenceAt)
      ensures Valid() && text == t && fences == lines && seen == multiset{} && pos == 0
    {
      text, fences, pos, open, seen := t, lines, 0, None, multiset{};
    }

    /** Passes the line the scanner is at. */
    method PassLine(ghost ls: nat)
      requires Valid() && IsLineStart(text, ls) && pos < ls
      modifies this
      ensures Valid() && old(pos) < pos <= ls && seen == old(seen) + multiset{old(pos)}
      ensures forall m :: IsLineStart(text, m) && old(pos) < m ==> pos <= m
    {
      var e := NextBreak(text, pos);
      FoldStep(text, fences, pos, ls);
      open := Step(open, fences(pos));
      pos, seen := e + 1, seen + multiset{pos};
    }

    /** Answers for one index, and reads the lines it has to read. */
    method Query(idx: nat) returns (inside: bool)
      requires Valid() && idx <= |text|
      modifies this
      ensures Valid() && pos == LineStart(text, idx)
      ensures inside == InFence(text, fences, idx)
      ensures ReadMore(old(seen), seen, text, fences, old(pos), pos)
    {
      var ls := LineStart(text, idx);
      if ls < pos {
        pos, open := 0, None;
      }
      ghost var from := pos;
      while pos < ls
        invariant from <= pos <= ls && Valid()
        invariant forall m: nat :: IsLineStart(text, m) ==> seen[m] == old(seen)[m] + if from <= m < pos then 1 else 0
      {
        PassLine(ls);
      }
      if open.Some? { return true; }
      seen := seen + multiset{ls};
      inside := fences(ls).Some?;
    }
  }

  /** One line further in the fold. */
  lemma {:induction false} FoldStep(text: Str, fences: FenceAt, pos: nat, ls: nat)
    requires IsLineStart(text, pos) && IsLineStart(text, ls) && pos < ls
    ensures var e := NextBreak(text, pos);
      e < ls && OpenBefore(text, fences, e + 1) == Step(OpenBefore(text, fences, pos), fences(pos))
  {
    NextLine(text, pos, ls);
  }

  /** Between two line starts there is a break, and the line behind it starts where the fold expects it. */
  lemma {:induction false} NextLine(text: Str, pos: nat, ls: nat)
    requires IsLineStart(text, pos) && IsLineStart(text, ls) && pos < ls
    ensures var e := NextBreak(text, pos);
      e < ls && LineStart(text, e) == pos
  {
    var e := NextBreak(text, pos);
    assert e < ls;
    LineStartIs(text, e, pos);
  }

  predicate NotBefore(idxs: seq<nat>, i: nat) {
    0 < i < |idxs| ==> idxs[i - 1] <= idxs[i]
  }

  predicate Ascending(idxs: seq<nat>) {
    forall i :: 0 <= i < |idxs| ==> NotBefore(idxs, i)
  }

  /** Where the scanner is after the first i of the indices. */
  function Place(text: Str, idxs: seq<nat>, i: nat): nat
    requires i <= |idxs| && forall j :: 0 <= j < |idxs| ==> idxs[j] <= |text|
  {
    if i == 0 then 0 else LineStart(text, idxs[i - 1])
  }

  /** How often the first i queries read the line that starts at m. */
  function ReadsSoFar(text: Str, fences: FenceAt, idxs: seq<nat>, i: nat, m: nat): nat
    requires i <= |idxs| && forall j :: 0 <= j < |idxs| ==> idxs[j] <= |text|
  {
    if i == 0 then 0
    else
      ReadsSoFar(text, fences, idxs, i - 1, m) +
      ReadsOf(text, fences, Place(text, idxs, i - 1), Place(text, idxs, i), m)
  }

  /** What has been read is what the first i queries read. */
  ghost predicate SeenIs(seen: multiset<nat>, text: Str, fences: FenceAt, idxs: seq<nat>, i: nat)
    requires i <= |idxs| && forall j :: 0 <= j < |idxs| ==> idxs[j] <= |text|
  {
    forall m: nat :: IsLineStart(text, m) ==> seen[m] == ReadsSoFar(text, fences, idxs, i, m)
  }

  /** How many of the first i queries ask about the line that starts at m, if no fence is open there. */
  function Looks(text: Str, fences: FenceAt, idxs: seq<nat>, i: nat, m: nat): nat
    requires IsLineStart(text, m) && i <= |idxs| && forall j :: 0 <= j < |idxs| ==> idxs[j] <= |text|
  {
    if i == 0 then 0
    else
      Looks(text, fences, idxs, i - 1, m) +
      if LineStart(text, idxs[i - 1]) == m && OpenBefore(text, fences, m).None? then 1 else 0
  }

  /** However the indices come, each is answered by the text alone; how often each line is read is told exactly. */
  method QueryAll(scanner: FenceScanner, idxs: seq<nat>) returns (answers: seq<bool>)
    requires scanner.Valid() && scanner.pos == 0 && scanner.seen == multiset{}
    requires forall i :: 0 <= i < |idxs| ==> idxs[i] <= |scanner.text|
    modifies scanner
    ensures |answers| == |idxs|
    ensures forall i :: 0 <= i < |idxs| ==> answers[i] == InFence(scanner.text, scanner.fences, idxs[i])
    ensures SeenIs(scanner.seen, scanner.text, scanner.fences, idxs, |idxs|)
  {
    answers := [];
    ghost var asked := AskedOf(scanner.text, scanner.fences);
    for i := 0 to |idxs|
      invariant scanner.Valid() && |answers| == i && scanner.pos == Place(scanner.text, idxs, i)
      invariant forall j :: 0 <= j < i ==> answers[j] == asked(idxs[j])
      invariant SeenIs(scanner.seen, scanner.text, scanner.fences, idxs, i)
    {
      var inside := QueryNext(scanner, idxs, i);
      answers := answers + [inside];
    }
    assert forall i :: 0 <= i < |idxs| ==> asked(idxs[i]) == InFence(scanner.text, scanner.fences, idxs[i]);
  }

  /** One of a sequence of queries. */
  method QueryNext(scanner: FenceScanner, idxs: seq<nat>, i: nat) returns (inside: bool)
    requires i < |idxs| && forall j :: 0 <= j < |idxs| ==> idxs[j] <= |scanner.text|
    requires scanner.Valid() && scanner.pos == Place(scanner.text, idxs, i)
    requires SeenIs(scanner.seen, scanner.text, scanner.fences, idxs, i)
    modifies scanner
    ensures scanner.Valid() && scanner.pos == Place(scanner.text, idxs, i + 1)
    ensures SeenIs(scanner.seen, scanner.text, scanner.fences, idxs, i + 1)
    ensures inside == AskedOf(scanner.text, scanner.fences)(idxs[i])
  {
    inside := scanner.Query(idxs[i]);
  }

  /**
    Ascending indices: every line before the last one asked about is passed once and no other, and each query reads
    its own line once more when no fence is open there.
   */
  lemma {:induction false} AscendingReads(text: Str, fences: FenceAt, idxs: seq<nat>, i: nat, m: nat)
    requires Ascending(idxs) && IsLineStart(text, m) && i <= |idxs| && forall j :: 0 <= j < |idxs| ==> idxs[j] <= |text|
    ensures ReadsSoFar(text, fences, idxs, i, m)
         == (if m < Place(text, idxs, i) then 1 else 0) + Looks(text, fences, idxs, i, m)
  {
    if i > 0 {
      AscendingReads(text, fences, idxs, i - 1, m);
      if i > 1 { LaterLine(text, idxs, i - 1); }
      var from, ls := Place(text, idxs, i - 1), Place(text, idxs, i);
      assert from <= ls && ls == LineStart(text, idxs[i - 1]);
      ForwardReads(text, fences, from, ls, m);
    }
  }

  lemma {:induction false} ForwardReads(text: Str, fences: FenceAt, from: nat, ls: nat, m: nat)
    requires IsLineStart(text, ls) && from <= ls
    ensures (if m < from then 1 else 0) + ReadsOf(text, fences, from, ls, m)
         == (if m < ls then 1 else 0) + if ls == m && OpenBefore(text, fences, ls).None? then 1 else 0
  {
  }

  /** A line asked about twice is read twice, although the indices ascend. */
  lemma {:induction false} AskedTwice(line: Str, idxs: seq<nat>)
    requires NoBreak(line) && idxs == [0, 0]
    ensures Ascending(idxs) && ReadsSoFar(line, FencesOf(line), idxs, 2, 0) == 2
  {
    assert NotBefore(idxs, 0) && NotBefore(idxs, 1);
    AscendingReads(line, FencesOf(line), idxs, 2, 0);
    assert Looks(line, FencesOf(line), idxs, 1, 0) == 1;
  }

  lemma {:induction false} LaterLine(text: Str, idxs: seq<nat>, i: nat)
    requires 0 < i < |idxs| && Ascending(idxs) && idxs[i - 1] <= |text| && idxs[i] <= |text|
    ensures LineStart(text, idxs[i - 1]) <= LineStart(text, idxs[i])
  {
    assert NotBefore(idxs, i);
    LineStartMonotone(text, idxs[i - 1], idxs[i]);
  }

  lemma {:induction false} LineStartMonotone(text: Str, a: nat, b: nat)
    requires a <= b <= |text|
    ensures LineStart(text, a) <= LineStart(text, b)
  {
  }

  // ----- what an open fence means --------------------------------------------------------------------------

  /** f was opened by the line at o, which no fence held, and no line after it up to ls closed it. */
  ghost predicate OpenedBy(text: Str, fences: FenceAt, ls: nat, o: nat, f: Fence)
    requires ls <= |text|
  {
    && o < ls && IsLineStart(text, o)
    && OpenBefore(text, fences, o).None? && fences(o) == Some(f)
    && forall m :: o < m < ls && IsLineStart(text, m) ==> !Closes(f, fences(m))
  }

  /** The fold, said without folding: a fence is open exactly when some earlier line opened it and none closed it. */
  lemma {:induction false} OpenMeans(text: Str, fences: FenceAt, ls: nat, f: Fence)
    requires IsLineStart(text, ls)
    ensures OpenBefore(text, fences, ls) == Some(f) <==> exists o :: OpenedBy(text, fences, ls, o, f)
    decreases ls
  {
    if OpenBefore(text, fences, ls) == Some(f) { OpenHasOpener(text, fences, ls, f); }
    if exists o :: OpenedBy(text, fences, ls, o, f) {
      var o :| OpenedBy(text, fences, ls, o, f);
      OpenerOpens(text, fences, ls, o, f);
    }
  }

  lemma {:induction false} OpenHasOpener(text: Str, fences: FenceAt, ls: nat, f: Fence)
    requires IsLineStart(text, ls) && OpenBefore(text, fences, ls) == Some(f)
    ensures exists o :: OpenedBy(text, fences, ls, o, f)
    decreases ls
  {
    var p := LineStart(text, ls - 1);
    if OpenBefore(text, fences, p) == Some(f) {
      OpenHasOpener(text, fences, p, f);
      var o :| OpenedBy(text, fences, p, o, f);
      assert OpenedBy(text, fences, ls, o, f);
    } else {
      assert OpenedBy(text, fences, ls, p, f);
    }
  }

  lemma {:induction false} OpenerOpens(text: Str, fences: FenceAt, ls: nat, o: nat, f: Fence)
    requires IsLineStart(text, ls) && OpenedBy(text, fences, ls, o, f)
    ensures OpenBefore(text, fences, ls) == Some(f)
    decreases ls
  {
    var p := LineStart(text, ls - 1);
    if o < p {
      assert OpenedBy(text, fences, p, o, f);
      OpenerOpens(text, fences, p, o, f);
    }
  }
}
