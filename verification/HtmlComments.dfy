/**
  Where the HTML comments of a note are: one pass over its lines that leaves out fenced code, inline code and
  md-memo's own markers, and that it keeps what the toggle expects of it.
 */
module HtmlComments {
  import opened Text
  import opened Markers
  import opened Fences
  import opened CommentToggle

  /** The comments in order, and where a "<!--" outside code starts that never ends, or -1. */
  datatype Scanned = Scanned(ranges: seq<Range>, unclosed: int)

  const NOTHING: Scanned := Scanned([], -1)

  predicate IsTick(c: CodeUnit) { c == BACKTICK }

  // ----- searching -----------------------------------------------------------------------------------------

  /** The first "<!--" at or after i, or the length of the text. */
  function OpenFrom(t: Str, i: nat): (p: nat)
    requires i <= |t|
    ensures i <= p <= |t|
    ensures p < |t| ==> OpensAt(t, p)
    ensures forall k: nat :: i <= k < p ==> !OpensAt(t, k)
    decreases |t| - i
  {
    if i == |t| || OpensAt(t, i) then i else OpenFrom(t, i + 1)
  }

  /** The first "-->" at or after i, or the length of the text. */
  function ArrowFrom(t: Str, i: nat): (p: nat)
    requires i <= |t|
    ensures i <= p <= |t|
    ensures p < |t| ==> ArrowAt(t, p)
    ensures forall k: nat :: i <= k < p ==> !ArrowAt(t, k)
    decreases |t| - i
  {
    if i == |t| || ArrowAt(t, i) then i else ArrowFrom(t, i + 1)
  }

  /** The first backtick at or after i, or the length of the text. */
  function TickFrom(t: Str, i: nat): (q: nat)
    requires i <= |t|
    ensures i <= q <= |t| && (q < |t| ==> t[q] == BACKTICK) && forall k :: i <= k < q ==> t[k] != BACKTICK
    decreases |t| - i
  {
    if i == |t| || t[i] == BACKTICK then i else TickFrom(t, i + 1)
  }

  /** A line ends at le. */
  predicate EndsAt(t: Str, le: nat) {
    le <= |t| && (le < |t| ==> t[le] == LF)
  }

  // ----- inline code ---------------------------------------------------------------------------------------

  /** The end of the next run of exactly n backticks from j on, on a line that ends at le. */
  function CloseRun(t: Str, j: nat, le: nat, n: nat): (s: Option<nat>)
    requires j <= le && EndsAt(t, le)
    ensures s.Some? ==> j < s.value <= le
    decreases le - j
  {
    if TickFrom(t, j) >= le then None
    else
      var r := TickFrom(t, j);
      var s := RunEnd(t, r, IsTick);
      if s - r == n then Some(s) else CloseRun(t, s, le, n)
  }

  /** The end of the code span that holds p, reading the runs of backticks from i on. */
  function SpanEnd(t: Str, i: nat, p: nat, le: nat): (c: Option<nat>)
    requires i <= le && p < le && EndsAt(t, le)
    ensures c.Some? ==> p < c.value <= le
    decreases le - i
  {
    if i >= p || TickFrom(t, i) >= p then None
    else
      var q := TickFrom(t, i);
      var k := RunEnd(t, q, IsTick);
      match CloseRun(t, k, le, k - q)
      case None => SpanEnd(t, k, p, le)
      case Some(c) => if c > p then Some(c) else SpanEnd(t, c, p, le)
  }

  // ----- the pass ------------------------------------------------------------------------------------------

  /** What the pass asks: the fence on the line that starts at an index, and whether a marker stands there. */
  datatype Rules = Rules(fences: FenceAt, marker: nat -> bool)

  function RulesOf(t: Str): Rules {
    Rules(FencesOf(t), (p: nat) => MarkerAt(t, p))
  }

  /** The lines from ls on, with the fence that is open there. */
  function ScanLines(rules: Rules, t: Str, ls: nat, open: Option<Fence>): Scanned
    decreases |t| + 1 - ls, 1
  {
    if ls >= |t| || OpenFrom(t, ls) == |t| then NOTHING
    else
      var le, f := NextBreak(t, ls), rules.fences(ls);
      if open.Some? || f.Some? then ScanLines(rules, t, le + 1, Step(open, f))
      else ScanComments(rules, t, ls, le)
  }

  /** The comments that start from `from` on, on the line that ends at le; then the lines behind it. */
  function ScanComments(rules: Rules, t: Str, from: nat, le: nat): Scanned
    requires from <= le && EndsAt(t, le)
    decreases |t| + 1 - from, 0
  {
    var p := OpenFrom(t, from);
    if p >= le then ScanLines(rules, t, le + 1, None)
    else
      match SpanEnd(t, from, p, le)
      case Some(c) => ScanComments(rules, t, c, le)
      case None =>
        var close := ArrowFrom(t, p + 2);
        if close == |t| then Scanned([], p)
        else
          var rest := ScanComments(rules, t, close + 3, LineOf(t, close + 3, le));
          if rules.marker(p) then rest else Before([Range(p, close + 3)], rest)
  }

  /** The end of the line that a comment which ends at `end` leaves the pass on. */
  function LineOf(t: Str, end: nat, le: nat): (e: nat)
    requires end <= |t| && EndsAt(t, le)
    ensures end <= e && EndsAt(t, e)
  {
    if end > le then NextBreak(t, end) else le
  }

  function Before(ranges: seq<Range>, rest: Scanned): Scanned {
    rest.(ranges := ranges + rest.ranges)
  }

  function Scan(t: Str): Scanned { ScanLines(RulesOf(t), t, 0, None) }

  /** The comments of a note, as the toggle asks for them. */
  function Ranges(): Scanner {
    (t: Str) => Scan(t).ranges
  }

  // ----- what the pass promises ----------------------------------------------------------------------------

  /** A comment runs from a "<!--" to the first "-->" that can close it, and is no marker. */
  ghost predicate IsComment(rules: Rules, t: Str, r: Range) {
    && 0 <= r.start && r.start + 5 <= r.end <= |t| && OpensAt(t, r.start)
    && ArrowFrom(t, r.start + 2) == r.end - 3 && !rules.marker(r.start)
  }

  /** Comments one after another from lo on, and a "<!--" that never ends, behind them all. */
  ghost predicate InOrder(rules: Rules, t: Str, s: Scanned, lo: nat) {
    && (forall i :: 0 <= i < |s.ranges| ==> lo <= s.ranges[i].start && IsComment(rules, t, s.ranges[i]))
    && (forall i, j :: 0 <= i < j < |s.ranges| ==> s.ranges[i].end <= s.ranges[j].start)
    && (s.unclosed == -1 || (lo <= s.unclosed && NeverEnds(t, s.unclosed)))
    && (s.unclosed != -1 ==> forall i :: 0 <= i < |s.ranges| ==> s.ranges[i].end <= s.unclosed)
  }

  ghost predicate NeverEnds(t: Str, p: int) {
    0 <= p && OpensAt(t, p) && ArrowFrom(t, p + 2) == |t|
  }

  lemma {:induction false} InOrderLower(rules: Rules, t: Str, s: Scanned, lo: nat, lower: nat)
    requires InOrder(rules, t, s, lo) && lower <= lo
    ensures InOrder(rules, t, s, lower)
  {
  }

  lemma {:induction false} InOrderMore(rules: Rules, t: Str, rest: Scanned, r: Range, lo: nat)
    requires IsComment(rules, t, r) && lo <= r.start && InOrder(rules, t, rest, r.end)
    ensures InOrder(rules, t, Before([r], rest), lo)
  {
    var all := [r] + rest.ranges;
    assert forall i :: 0 < i < |all| ==> all[i] == rest.ranges[i - 1];
    forall i | 0 <= i < |all| ensures lo <= all[i].start && IsComment(rules, t, all[i]) {
      assert i > 0 ==> IsComment(rules, t, rest.ranges[i - 1]) && r.end <= rest.ranges[i - 1].start;
    }
    forall i, j | 0 <= i < j < |all| ensures all[i].end <= all[j].start {
      assert i > 0 ==> rest.ranges[i - 1].end <= rest.ranges[j - 1].start;
    }
  }

  /** The pass at a "<!--" that is not in inline code, with what it finds behind that comment. */
  ghost predicate AtComment(rules: Rules, t: Str, from: nat, le: nat, p: nat, rest: Scanned) {
    && from <= le && EndsAt(t, le) && p == OpenFrom(t, from) < le && SpanEnd(t, from, p, le).None?
    && ArrowFrom(t, p + 2) < |t|
    && var end := ArrowFrom(t, p + 2) + 3; rest == ScanComments(rules, t, end, LineOf(t, end, le))
  }

  lemma {:induction false} CommentStep(rules: Rules, t: Str, from: nat, le: nat, p: nat, rest: Scanned)
    requires AtComment(rules, t, from, le, p, rest)
    ensures var r := Range(p, ArrowFrom(t, p + 2) + 3);
      ScanComments(rules, t, from, le) == (if rules.marker(p) then rest else Before([r], rest))
  {
  }

  lemma {:induction false} CodeStep(rules: Rules, t: Str, from: nat, le: nat, c: nat)
    requires from <= le && EndsAt(t, le) && OpenFrom(t, from) < le
    requires SpanEnd(t, from, OpenFrom(t, from), le) == Some(c)
    ensures from < c <= le && ScanComments(rules, t, from, le) == ScanComments(rules, t, c, le)
  {
  }

  lemma {:induction false} LastStep(rules: Rules, t: Str, from: nat, le: nat)
    requires from <= le && EndsAt(t, le) && OpenFrom(t, from) < le
    requires SpanEnd(t, from, OpenFrom(t, from), le).None? && ArrowFrom(t, OpenFrom(t, from) + 2) == |t|
    ensures ScanComments(rules, t, from, le) == Scanned([], OpenFrom(t, from))
  {
  }

  lemma {:induction false} LinesInOrder(rules: Rules, t: Str, ls: nat, open: Option<Fence>)
    ensures InOrder(rules, t, ScanLines(rules, t, ls, open), ls)
    decreases |t| + 1 - ls, 1
  {
    if ls < |t| && OpenFrom(t, ls) < |t| {
      var le, f := NextBreak(t, ls), rules.fences(ls);
      if open.Some? || f.Some? {
        LinesInOrder(rules, t, le + 1, Step(open, f));
        InOrderLower(rules, t, ScanLines(rules, t, le + 1, Step(open, f)), le + 1, ls);
      } else {
        CommentsInOrder(rules, t, ls, le);
      }
    }
  }

  lemma {:induction false} CommentsInOrder(rules: Rules, t: Str, from: nat, le: nat)
    requires from <= le && EndsAt(t, le)
    ensures InOrder(rules, t, ScanComments(rules, t, from, le), from)
    decreases |t| + 1 - from, 0
  {
    var p := OpenFrom(t, from);
    if p >= le {
      LinesInOrder(rules, t, le + 1, None);
      InOrderLower(rules, t, ScanLines(rules, t, le + 1, None), le + 1, from);
    } else if SpanEnd(t, from, p, le).Some? {
      var c := SpanEnd(t, from, p, le).value;
      CommentsInOrder(rules, t, c, le);
      CodeInOrder(rules, t, from, le, c);
    } else if ArrowFrom(t, p + 2) == |t| {
      LastStep(rules, t, from, le);
    } else {
      var end := ArrowFrom(t, p + 2) + 3;
      var next := LineOf(t, end, le);
      CommentsInOrder(rules, t, end, next);
      CommentsMore(rules, t, from, le, p, end, ScanComments(rules, t, end, next));
    }
  }

  lemma {:induction false} CodeInOrder(rules: Rules, t: Str, from: nat, le: nat, c: nat)
    requires from <= le && EndsAt(t, le) && OpenFrom(t, from) < le
    requires SpanEnd(t, from, OpenFrom(t, from), le) == Some(c) && c <= le
    requires InOrder(rules, t, ScanComments(rules, t, c, le), c)
    ensures InOrder(rules, t, ScanComments(rules, t, from, le), from)
  {
    CodeStep(rules, t, from, le, c);
    InOrderLower(rules, t, ScanComments(rules, t, c, le), c, from);
  }

  lemma {:induction false} CommentsMore(rules: Rules, t: Str, from: nat, le: nat, p: nat, end: nat, rest: Scanned)
    requires AtComment(rules, t, from, le, p, rest) && end == ArrowFrom(t, p + 2) + 3 && InOrder(rules, t, rest, end)
    ensures InOrder(rules, t, ScanComments(rules, t, from, le), from)
  {
    CommentStep(rules, t, from, le, p, rest);
    CommentInOrder(rules, t, from, Range(p, end), rest, ScanComments(rules, t, from, le));
  }

  lemma {:induction false} CommentInOrder(rules: Rules, t: Str, from: nat, r: Range, rest: Scanned, whole: Scanned)
    requires from <= r.start && (IsComment(rules, t, r) || (0 <= r.start <= r.end && rules.marker(r.start)))
    requires InOrder(rules, t, rest, r.end) && whole == if rules.marker(r.start) then rest else Before([r], rest)
    ensures InOrder(rules, t, whole, from)
  {
    if rules.marker(r.start) {
      InOrderLower(rules, t, rest, r.end, from);
    } else {
      InOrderMore(rules, t, rest, r, from);
    }
  }

  /** The scanner keeps the promise that the toggle is proved against. */
  lemma {:induction false} ScannerKeepsPromise()
    ensures CommentScanner(Ranges())
  {
    forall t: Str ensures Comments(t, Ranges()(t)) && NoMarkers(t, Ranges()(t)) {
      assert Comments(t, Scan(t).ranges) && NoMarkers(t, Scan(t).ranges) by { ScanKeepsPromise(t); }
    }
  }

  lemma {:induction false} ScanKeepsPromise(t: Str)
    ensures Comments(t, Scan(t).ranges) && NoMarkers(t, Scan(t).ranges)
    ensures Scan(t).unclosed == -1 || NeverEnds(t, Scan(t).unclosed)
  {
    var s := Scan(t);
    assert InOrder(RulesOf(t), t, s, 0) by { LinesInOrder(RulesOf(t), t, 0, None); }
    InOrderIsPromise(RulesOf(t), t, s);
  }

  lemma {:induction false} InOrderIsPromise(rules: Rules, t: Str, s: Scanned)
    requires InOrder(rules, t, s, 0) && rules == RulesOf(t)
    ensures Comments(t, s.ranges) && NoMarkers(t, s.ranges) && (s.unclosed == -1 || NeverEnds(t, s.unclosed))
  {
    forall i | 0 <= i < |s.ranges|
      ensures 0 <= s.ranges[i].start < s.ranges[i].end <= |t| && OpensAt(t, s.ranges[i].start)
      ensures s.ranges[i].end >= 3 && ArrowAt(t, s.ranges[i].end - 3) && !MarkerAt(t, s.ranges[i].start)
    {
      assert IsComment(rules, t, s.ranges[i]);
      assert rules.marker(s.ranges[i].start) == MarkerAt(t, s.ranges[i].start);
    }
  }

  // ----- the fences are those of the task finder -----------------------------------------------------------

  /** Every comment of the text ends on the line it starts on. */
  ghost predicate OneLineComments(t: Str) {
    forall p: nat :: ClosesOnLine(t, p)
  }

  predicate ClosesOnLine(t: Str, p: nat) {
    p < |t| && OpensAt(t, p) ==> ArrowFrom(t, p + 2) == |t| || ArrowFrom(t, p + 2) < NextBreak(t, p)
  }

  /** No comment starts at an index that passes a test. */
  ghost predicate NoneAt(rs: seq<Range>, test: nat -> bool) {
    forall i :: 0 <= i < |rs| ==> 0 <= rs[i].start && !test(rs[i].start)
  }

  /** While no comment goes on over a line, the pass sees the fences that the scanner of the task finder sees. */
  lemma {:induction false} OutsideFences(t: Str)
    requires OneLineComments(t)
    ensures NoneAt(Scan(t).ranges, AskedOf(t, FencesOf(t)))
  {
    LinesOutside(RulesOf(t), t, 0, None, AskedOf(t, FencesOf(t)));
  }

  lemma {:induction false} LinesOutside(rules: Rules, t: Str, ls: nat, open: Option<Fence>, test: nat -> bool)
    requires OneLineComments(t) && test == AskedOf(t, rules.fences)
    requires IsLineStart(t, ls) && open == OpenBefore(t, rules.fences, ls)
    ensures NoneAt(ScanLines(rules, t, ls, open).ranges, test)
    decreases |t| + 1 - ls
  {
    if ls < |t| {
      var le, next := NextBreak(t, ls), Step(open, rules.fences(ls));
      if le < |t| {
        FoldStep(t, rules.fences, ls, le + 1);
        LinesOutside(rules, t, le + 1, next, test);
      }
      LineOnly(rules, t, ls, open, le, next, test);
    }
  }

  lemma {:induction false} LineOnly(rules: Rules, t: Str, ls: nat, open: Option<Fence>, le: nat, next: Option<Fence>,
        test: nat -> bool)
    requires OneLineComments(t) && test == AskedOf(t, rules.fences) && ls < |t| && le == NextBreak(t, ls)
    requires IsLineStart(t, ls) && open == OpenBefore(t, rules.fences, ls) && next == Step(open, rules.fences(ls))
    requires le < |t| ==> NoneAt(ScanLines(rules, t, le + 1, next).ranges, test)
    ensures NoneAt(ScanLines(rules, t, ls, open).ranges, test)
  {
    var rest := ScanLines(rules, t, le + 1, next);
    assert NoneAt(rest.ranges, test);
    if OpenFrom(t, ls) < |t| && open.None? && rules.fences(ls).None? {
      assert next == None;
      LineOutside(t, rules.fences, ls, le, test);
      CommentsOutside(rules, t, ls, le, test);
    }
  }

  /** A line before which no fence is open and that is none is outside fences. */
  lemma {:induction false} LineOutside(t: Str, fences: FenceAt, ls: nat, le: nat, test: nat -> bool)
    requires IsLineStart(t, ls) && le == NextBreak(t, ls) && test == AskedOf(t, fences)
    requires OpenBefore(t, fences, ls).None? && fences(ls).None?
    ensures OutsideTo(t, ls, le, test)
  {
    forall p: nat | ls <= p < le ensures !test(p) { LineStartIs(t, p, ls); }
  }

  lemma {:induction false} CommentsOutside(rules: Rules, t: Str, from: nat, le: nat, test: nat -> bool)
    requires OneLineComments(t) && from <= le && EndsAt(t, le) && OutsideTo(t, from, le, test)
    requires NoneAt(ScanLines(rules, t, le + 1, None).ranges, test)
    ensures NoneAt(ScanComments(rules, t, from, le).ranges, test)
    decreases |t| + 1 - from
  {
    var p := OpenFrom(t, from);
    if p >= le {
    } else if SpanEnd(t, from, p, le).Some? {
      var c := SpanEnd(t, from, p, le).value;
      CodeStep(rules, t, from, le, c);
      CommentsOutside(rules, t, c, le, test);
    } else if ArrowFrom(t, p + 2) == |t| {
      LastStep(rules, t, from, le);
    } else {
      var end := ArrowFrom(t, p + 2) + 3;
      CloseOnLine(t, p, le, from, test);
      CommentsOutside(rules, t, end, le, test);
      CommentOutside(rules, t, from, le, p, end, ScanComments(rules, t, end, le), test);
    }
  }

  lemma {:induction false} CommentOutside(rules: Rules, t: Str, from: nat, le: nat, p: nat, end: nat, rest: Scanned,
        test: nat -> bool)
    requires from <= le && EndsAt(t, le) && p == OpenFrom(t, from) < le && SpanEnd(t, from, p, le).None?
    requires ArrowFrom(t, p + 2) < |t| && end == ArrowFrom(t, p + 2) + 3 <= le
    requires rest == ScanComments(rules, t, end, le) && NoneAt(rest.ranges, test) && !test(p)
    ensures NoneAt(ScanComments(rules, t, from, le).ranges, test)
  {
    assert LineOf(t, end, le) == le;
    CommentStep(rules, t, from, le, p, rest);
    NoneMore(rules.marker(p), Range(p, end), rest, ScanComments(rules, t, from, le), test);
  }

  /** No unit of a stretch is a line feed or passes the test. */
  ghost predicate OutsideTo(t: Str, from: nat, le: nat, test: nat -> bool) {
    le <= |t| && forall k: nat :: from <= k < le ==> t[k] != LF && !test(k)
  }

  lemma {:induction false} NoneMore(marker: bool, r: Range, rest: Scanned, whole: Scanned, test: nat -> bool)
    requires NoneAt(rest.ranges, test) && 0 <= r.start && !test(r.start)
    requires whole == if marker then rest else Before([r], rest)
    ensures NoneAt(whole.ranges, test)
  {
  }

  lemma {:induction false} CloseOnLine(t: Str, p: nat, le: nat, from: nat, test: nat -> bool)
    requires OneLineComments(t) && OutsideTo(t, from, le, test) && EndsAt(t, le)
    requires from <= p < le && OpensAt(t, p) && ArrowFrom(t, p + 2) < |t|
    ensures ArrowFrom(t, p + 2) + 3 <= le && OutsideTo(t, ArrowFrom(t, p + 2) + 3, le, test) && !test(p)
  {
    BreakIs(t, p, le);
    assert ClosesOnLine(t, p);
  }

  // ----- the loops -----------------------------------------------------------------------------------------

  /** The fence on a line; the first unit behind at most three spaces tells most lines off. */
  method FenceOn(t: Str, ls: nat, le: nat) returns (f: Option<Fence>)
    requires ls <= |t| && le == NextBreak(t, ls)
    ensures f == FenceLine(Fences.LineAt(t, ls))
  {
    var i := ls;
    while i < le && i - ls < 3 && t[i] == SPACE
      invariant ls <= i <= le && i - ls <= 3 && forall k :: ls <= k < i ==> t[k] == SPACE
    {
      i := i + 1;
    }
    if i == le || (t[i] != BACKTICK && t[i] != TILDE) {
      NoFenceThere(t, ls, i);
      return None;
    }
    var line := t[ls..le];
    if line[|line| - 1] == CR { line := line[..|line| - 1]; }
    assert line == Fences.LineAt(t, ls);
    f := FenceLine(line);
  }

  lemma {:induction false} NoFenceThere(t: Str, ls: nat, i: nat)
    requires ls <= |t| && ls <= i <= NextBreak(t, ls) && i - ls <= 3 && forall k :: ls <= k < i ==> t[k] == SPACE
    requires i < NextBreak(t, ls) ==> (t[i] != SPACE || i - ls == 3) && t[i] != BACKTICK && t[i] != TILDE
    ensures FenceLine(Fences.LineAt(t, ls)).None?
  {
    var line := Fences.LineAt(t, ls);
    assert forall k :: 0 <= k < |line| ==> line[k] == t[ls + k];
    NoFenceHere(line, if i - ls <= |line| then i - ls else |line|);
  }

  lemma {:induction false} NoFenceHere(line: Str, i: nat)
    requires i <= |line| && i <= 3 && forall k :: 0 <= k < i ==> line[k] == SPACE
    requires i < |line| ==> (line[i] != SPACE || i == 3) && line[i] != BACKTICK && line[i] != TILDE
    ensures FenceLine(line).None?
  {
    if i < |line| && line[i] == SPACE {
      assert forall k :: 0 <= k <= 3 ==> line[k] == SPACE;
      assert RunEnd(line, 0, c => c == SPACE) > 3;
    } else {
      RunEndIs(line, 0, i, c => c == SPACE);
    }
  }

  /** The end of the run that closes one of n backticks. */
  method FindClose(t: Str, k: nat, le: nat, n: nat) returns (close: Option<nat>)
    requires k <= le && EndsAt(t, le)
    ensures close == CloseRun(t, k, le, n)
  {
    var j := k;
    ghost var whole := CloseRun(t, k, le, n);
    while j < le
      invariant k <= j <= le && CloseRun(t, j, le, n) == whole
      decreases le - j
    {
      var r := TickFrom(t, j);
      if r >= le { return None; }
      var s := RunEnd(t, r, IsTick);
      RunOnLine(t, r, le);
      if s - r == n { return Some(s); }
      j := s;
    }
    close := None;
  }

  /** One run of backticks, and the one that closes it. */
  lemma {:induction false} SpanStep(t: Str, i: nat, p: nat, le: nat, q: nat, k: nat, n: nat, close: Option<nat>)
    requires i < p < le && EndsAt(t, le) && q == TickFrom(t, i) < p && k == RunEnd(t, q, IsTick)
    requires k <= le && k == q + n && close == CloseRun(t, k, le, n)
    ensures i < k && SpanEnd(t, i, p, le) == match close
      case None => SpanEnd(t, k, p, le)
      case Some(c) => if c > p then Some(c) else SpanEnd(t, c, p, le)
  {
  }

  lemma {:induction false} RunOnLine(t: Str, q: nat, le: nat)
    requires q < le && EndsAt(t, le) && t[q] == BACKTICK
    ensures q < RunEnd(t, q, IsTick) <= le
  {
  }

  /** Walks the runs of backticks up to p. */
  method FindSpan(t: Str, from: nat, p: nat, le: nat) returns (code: Option<nat>)
    requires from <= le && p < le && EndsAt(t, le)
    ensures code == SpanEnd(t, from, p, le)
  {
    var i := from;
    while i < p
      invariant i <= le && SpanEnd(t, i, p, le) == SpanEnd(t, from, p, le)
      decreases le - i
    {
      var q := TickFrom(t, i);
      if q >= p { break; }
      var k := RunEnd(t, q, IsTick);
      RunOnLine(t, q, le);
      var n: nat := k - q;
      var close := FindClose(t, k, le, n);
      SpanStep(t, i, p, le, q, k, n, close);
      if close.None? {
        i := k;
      } else if close.value > p {
        return close;
      } else {
        i := close.value;
      }
    }
    code := None;
  }

  /** What a line leaves behind: the comments that start on it, where it ends, and the next "<!--". */
  datatype LineScan = Goes(found: seq<Range>, le: nat, next: nat) | Ends(found: seq<Range>, at: nat)

  /** The next "<!--" is known, unless the pass went past it. */
  ghost predicate LooksAhead(t: Str, ls: nat, next: nat) {
    ls <= next && ls <= |t| ==> next == OpenFrom(t, ls)
  }

  /** What a line leaves behind is what the pass makes of it. */
  ghost predicate Reads(rules: Rules, t: Str, ls: nat, lineEnd: nat, r: LineScan)
    requires ls <= lineEnd && EndsAt(t, lineEnd)
  {
    match r
    case Ends(found, at) => ScanComments(rules, t, ls, lineEnd) == Scanned(found, at)
    case Goes(found, le, next) =>
      ScanComments(rules, t, ls, lineEnd) == Before(found, ScanLines(rules, t, le + 1, None))
  }

  /** And it knows where the pass goes on. */
  ghost predicate LineRead(rules: Rules, t: Str, ls: nat, lineEnd: nat, r: LineScan) {
    && ls <= lineEnd && EndsAt(t, lineEnd) && Reads(rules, t, ls, lineEnd, r)
    && (r.Goes? ==> ls <= r.le && EndsAt(t, r.le) && r.next <= |t| && LooksAhead(t, r.le + 1, r.next))
  }

  /** What was found on the line, and what is still to be found from `from` on, make what the pass makes of it. */
  ghost predicate Found(rules: Rules, t: Str, found: seq<Range>, from: nat, le: nat, next: nat, whole: Scanned) {
    && from <= le && EndsAt(t, le) && next == OpenFrom(t, from)
    && Before(found, ScanComments(rules, t, from, le)) == whole
  }

  lemma {:induction false} PastCode(rules: Rules, t: Str, found: seq<Range>, from: nat, le: nat, p: nat, code: nat,
        whole: Scanned)
    requires Found(rules, t, found, from, le, p, whole) && p < le && SpanEnd(t, from, p, le) == Some(code)
    ensures Found(rules, t, found, code, le, OpenFrom(t, code), whole)
  {
  }

  lemma {:induction false} PastComment(rules: Rules, t: Str, found: seq<Range>, from: nat, le: nat, p: nat, end: nat,
        later: seq<Range>, whole: Scanned)
    requires Found(rules, t, found, from, le, p, whole) && p < le && SpanEnd(t, from, p, le).None?
    requires ArrowFrom(t, p + 2) < |t| && end == ArrowFrom(t, p + 2) + 3
    requires later == if rules.marker(p) then found else found + [Range(p, end)]
    ensures Found(rules, t, later, end, LineOf(t, end, le), OpenFrom(t, end), whole)
  {
    BeforeMore(found, if rules.marker(p) then [] else [Range(p, end)], ScanComments(rules, t, end, LineOf(t, end, le)));
  }

  lemma {:induction false} PastLast(rules: Rules, t: Str, found: seq<Range>, from: nat, le: nat, p: nat, whole: Scanned)
    requires Found(rules, t, found, from, le, p, whole) && p < le
    requires SpanEnd(t, from, p, le).None? && ArrowFrom(t, p + 2) == |t|
    ensures whole == Scanned(found, p)
  {
    assert found + [] == found;
  }

  /** The comments that start on one line. */
  method ScanLine(rules: Rules, t: Str, ls: nat, lineEnd: nat, first: nat) returns (r: LineScan)
    requires ls <= lineEnd && EndsAt(t, lineEnd) && first == OpenFrom(t, ls)
    ensures LineRead(rules, t, ls, lineEnd, r)
  {
    var from, le, next: nat, found := ls, lineEnd, first, [];
    ghost var whole := FromLine(rules, t, ls, lineEnd);
    while next < le
      invariant ls <= from && Found(rules, t, found, from, le, next, whole)
      decreases |t| - from
    {
      var code := FindSpan(t, from, next, le);
      if code.Some? {
        PastCode(rules, t, found, from, le, next, code.value, whole);
        from, next := code.value, OpenFrom(t, code.value);
        continue;
      }
      var close := ArrowFrom(t, next + 2);
      if close == |t| {
        PastLast(rules, t, found, from, le, next, whole);
        return Ends(found, next);
      }
      var end := close + 3;
      var later := if rules.marker(next) then found else found + [Range(next, end)];
      PastComment(rules, t, found, from, le, next, end, later, whole);
      from, le, next, found := end, LineOf(t, end, le), OpenFrom(t, end), later;
    }
    r := Goes(found, le, next);
    LineGoes(rules, t, ls, lineEnd, from, r, whole);
  }

  lemma {:induction false} FromLine(rules: Rules, t: Str, ls: nat, lineEnd: nat) returns (whole: Scanned)
    requires ls <= lineEnd && EndsAt(t, lineEnd)
    ensures whole == ScanComments(rules, t, ls, lineEnd)
    ensures Found(rules, t, [], ls, lineEnd, OpenFrom(t, ls), whole)
  {
    whole := ScanComments(rules, t, ls, lineEnd);
    assert [] + whole.ranges == whole.ranges;
  }

  lemma {:induction false} LineGoes(rules: Rules, t: Str, ls: nat, lineEnd: nat, from: nat, r: LineScan, whole: Scanned)
    requires ls <= lineEnd && EndsAt(t, lineEnd) && whole == ScanComments(rules, t, ls, lineEnd)
    requires r.Goes? && ls <= from && Found(rules, t, r.found, from, r.le, r.next, whole) && r.le <= r.next
    ensures LineRead(rules, t, ls, lineEnd, r)
  {
    NextOpen(t, from, r.le);
  }

  lemma {:induction false} BeforeMore(found: seq<Range>, more: seq<Range>, rest: Scanned)
    ensures Before(found, Before(more, rest)) == Before(found + more, rest)
    ensures more == [] ==> found + more == found && Before(more, rest) == rest
  {
    AppendStep(found, more, rest.ranges);
    assert [] + rest.ranges == rest.ranges;
  }

  /** No comment starts with a line feed. */
  lemma {:induction false} NextOpen(t: Str, from: nat, le: nat)
    requires from <= le && EndsAt(t, le) && OpenFrom(t, from) >= le
    ensures le < |t| ==> OpenFrom(t, from) == OpenFrom(t, le + 1)
    ensures le == |t| ==> OpenFrom(t, from) == |t|
  {
    if le < |t| {
      var p := OpenFrom(t, from);
      assert p != le;
      OpenIs(t, le + 1, p);
    }
  }

  lemma {:induction false} OpenIs(t: Str, i: nat, p: nat)
    requires i <= p <= |t| && (p < |t| ==> OpensAt(t, p)) && forall k: nat :: i <= k < p ==> !OpensAt(t, k)
    ensures OpenFrom(t, i) == p
  {
  }

  /** Some fence may be in the text. */
  predicate MayFence(t: Str) {
    exists i :: 0 <= i < |t| && (TripleOf(t, i, BACKTICK) || TripleOf(t, i, TILDE))
  }

  predicate TripleOf(t: Str, i: nat, c: CodeUnit) {
    i + 2 < |t| && t[i] == c && t[i + 1] == c && t[i + 2] == c
  }

  /** A line with a fence has three of its units in a row. */
  lemma {:induction false} FenceHasTriple(t: Str, ls: nat)
    requires ls <= |t| && FenceLine(Fences.LineAt(t, ls)).Some?
    ensures MayFence(t)
  {
    var line := Fences.LineAt(t, ls);
    var i := RunEnd(line, 0, c => c == SPACE);
    var ch := line[i];
    var e := RunEnd(line, i, c => c == ch);
    assert line[i] == line[i + 1] == line[i + 2] == ch;
    assert forall k :: 0 <= k < |line| ==> line[k] == t[ls + k];
    assert TripleOf(t, ls + i, ch);
  }

  /** The fence on the line when there can be one at all. */
  method FenceIfAny(rules: Rules, t: Str, ls: nat, le: nat, fences: bool) returns (f: Option<Fence>)
    requires ls <= |t| && le == NextBreak(t, ls) && fences == MayFence(t) && rules.fences == FencesOf(t)
    ensures f == rules.fences(ls)
  {
    if !fences {
      if FenceLine(Fences.LineAt(t, ls)).Some? { FenceHasTriple(t, ls); }
      return None;
    }
    f := FenceOn(t, ls, le);
  }

  lemma {:induction false} StillAhead(t: Str, ls: nat, later: nat, next: nat)
    requires ls <= later && ls <= |t| && next == OpenFrom(t, ls)
    ensures LooksAhead(t, later, next)
  {
    if later <= next { OpenIs(t, later, next); }
  }

  /** What was found so far, and what is still to be found from ls on, make the whole. */
  ghost predicate Passed(rules: Rules, t: Str, found: seq<Range>, ls: nat, open: Option<Fence>, whole: Scanned) {
    Before(found, ScanLines(rules, t, ls, open)) == whole
  }

  /** Where the pass is: the next line, the fence open there, and the next "<!--". */
  datatype Place = Place(ls: nat, open: Option<Fence>, next: nat)

  /** What is found on one line, and where the pass goes on. */
  datatype Stride = On(found: seq<Range>, place: Place) | Stop(found: seq<Range>, at: nat)

  ghost predicate Strides(rules: Rules, t: Str, found: seq<Range>, at: Place, whole: Scanned) {
    && at.next <= |t| && LooksAhead(t, at.ls, at.next)
    && Passed(rules, t, found, at.ls, at.open, whole)
  }

  /** The pass may take a line: a "<!--" is on it or behind it. */
  ghost predicate Faces(rules: Rules, t: Str, found: seq<Range>, at: Place, whole: Scanned) {
    && at.ls < |t| && at.next == OpenFrom(t, at.ls) < |t|
    && Passed(rules, t, found, at.ls, at.open, whole)
  }

  /** The pass goes forward over a line. */
  ghost predicate Forward(rules: Rules, t: Str, found: seq<Range>, at: Place, s: Stride, whole: Scanned) {
    match s
    case On(more, place) => at.ls < place.ls && Strides(rules, t, found + more, place, whole)
    case Stop(more, p) => Scanned(found + more, p) == whole
  }

  lemma {:induction false} PastFence(rules: Rules, t: Str, found: seq<Range>, at: Place, f: Option<Fence>, to: Place,
        whole: Scanned)
    requires Faces(rules, t, found, at, whole) && f == rules.fences(at.ls) && (at.open.Some? || f.Some?)
    requires to == Place(NextBreak(t, at.ls) + 1, Step(at.open, f), at.next)
    ensures Forward(rules, t, found, at, On([], to), whole)
  {
    StillAhead(t, at.ls, to.ls, at.next);
    assert found + [] == found;
  }

  function StrideOf(line: LineScan): Stride {
    match line
    case Ends(more, p) => Stop(more, p)
    case Goes(more, le, next) => On(more, Place(le + 1, None, next))
  }

  lemma {:induction false} PastLine(rules: Rules, t: Str, found: seq<Range>, at: Place, line: LineScan, whole: Scanned)
    requires Faces(rules, t, found, at, whole) && at.open.None? && rules.fences(at.ls).None?
    requires LineRead(rules, t, at.ls, NextBreak(t, at.ls), line)
    ensures Forward(rules, t, found, at, StrideOf(line), whole)
  {
    assert whole == Before(found, ScanComments(rules, t, at.ls, NextBreak(t, at.ls)));
    if line.Goes? { BeforeMore(found, line.found, ScanLines(rules, t, line.le + 1, None)); }
  }

  /** One line of the pass. */
  method PassLine(rules: Rules, t: Str, at: Place, fences: bool, ghost found: seq<Range>, ghost whole: Scanned)
    returns (s: Stride)
    requires Faces(rules, t, found, at, whole) && fences == MayFence(t) && rules.fences == FencesOf(t)
    ensures Forward(rules, t, found, at, s, whole)
  {
    var le := NextBreak(t, at.ls);
    var f := FenceIfAny(rules, t, at.ls, le, fences);
    if at.open.Some? || f.Some? {
      var to := Place(le + 1, Step(at.open, f), at.next);
      PastFence(rules, t, found, at, f, to, whole);
      return On([], to);
    }
    var line := ScanLine(rules, t, at.ls, le, at.next);
    PastLine(rules, t, found, at, line, whole);
    s := StrideOf(line);
  }

  /** The whole pass: the next "<!--" is looked up once, and fences only when there can be one. */
  method ScanText(t: Str) returns (r: Scanned)
    ensures r == Scan(t)
  {
    var rules, found, fences := RulesOf(t), [], MayFence(t);
    var at := Place(0, None, OpenFrom(t, 0));
    ghost var whole := Scan(t);
    while at.ls < |t|
      invariant Strides(rules, t, found, at, whole)
      decreases |t| - at.ls
    {
      if at.next < at.ls { at := at.(next := OpenFrom(t, at.ls)); }
      if at.next == |t| { break; }
      var s := PassLine(rules, t, at, fences, found, whole);
      found := found + s.found;
      if s.Stop? { return Scanned(found, s.at); }
      at := s.place;
    }
    r := Scanned(found, -1);
  }
}
