/**
  Which task of a note the finder answers with, for any number of tasks: the one under the caret, else the one that
  is alone on the caret's line, else the first of a selection.
 */
module TaskChoice {
  import opened Text
  import opened LinePrefix
  import opened Tasks

  /** The tasks found on the lines that a selection touches. */
  function FoundIn(w: World, t: Str, a: nat, b: nat): seq<Candidate>
    requires a <= b <= |t|
  {
    FoundFrom(TasksOf(ReaderOf(w, t), t), t, LineStart(t, a), TouchedEnd(t, a, b))
  }

  lemma {:induction false} RegionIs(t: Str, a: nat, b: nat)
    requires a <= b <= |t|
    ensures RegionStop(t, a, b) == TouchedEnd(t, a, b)
  {
    if b > a {
      if t[b - 1] == LF { LineStartIs(t, b, b); } else { BreakIs(t, b - 1, NextBreak(t, b)); }
    }
  }

  predicate Holds(c: Candidate, a: nat) { c.task.start <= a <= c.task.end }

  predicate OnLine(c: Candidate, ls: nat) { c.wholeLine && c.task.lineStart == ls }

  // ----- the choice among the tasks found ------------------------------------------------------------------

  /** The first of a list with a property. */
  ghost predicate IsFirst(found: seq<Candidate>, k: nat, test: Candidate -> bool) {
    k < |found| && test(found[k]) && forall j :: 0 <= j < k ==> !test(found[j])
  }

  ghost predicate NoneOf(found: seq<Candidate>, test: Candidate -> bool) {
    forall k :: 0 <= k < |found| ==> !test(found[k])
  }

  lemma {:induction false} FirstIs(found: seq<Candidate>, k: nat, test: Candidate -> bool)
    requires IsFirst(found, k, test)
    ensures FirstThat(found, test) == Some(found[k])
    decreases k
  {
    if k > 0 {
      assert !test(found[0]);
      forall j | 0 <= j < k - 1 ensures !test(found[1..][j]) { assert !test(found[j + 1]); }
      FirstIs(found[1..], k - 1, test);
    }
  }

  lemma {:induction false} NoneIs(found: seq<Candidate>, test: Candidate -> bool)
    requires NoneOf(found, test)
    ensures FirstThat(found, test) == None
  {
    if found != [] {
      assert !test(found[0]);
      forall k | 0 <= k < |found[1..]| ensures !test(found[1..][k]) { assert !test(found[k + 1]); }
      NoneIs(found[1..], test);
    }
  }

  lemma {:induction false} PickTests(found: seq<Candidate>, a: nat, b: nat, ls: nat, under: Option<Candidate>,
        alone: Option<Candidate>)
    requires under == FirstThat(found, c => Holds(c, a)) && alone == FirstThat(found, c => OnLine(c, ls))
    ensures Pick(found, a, b, ls)
         == if under.Some? then Some(under.value.task)
            else if alone.Some? then Some(alone.value.task)
            else if b > a && found != [] then Some(found[0].task)
            else None
  {
    SameFirst(found, c => Holds(c, a), (c: Candidate) => c.task.start <= a <= c.task.end);
    SameFirst(found, c => OnLine(c, ls), (c: Candidate) => c.wholeLine && c.task.lineStart == ls);
  }

  lemma {:induction false} SameFirst(found: seq<Candidate>, f: Candidate -> bool, g: Candidate -> bool)
    requires forall c :: f(c) == g(c)
    ensures FirstThat(found, f) == FirstThat(found, g)
  {
    if found != [] { SameFirst(found[1..], f, g); }
  }

  // ----- what the finder answers ---------------------------------------------------------------------------

  lemma {:induction false} FindIsPick(w: World, t: Str, a: nat, b: nat, found: seq<Candidate>)
    requires a <= b <= |t| && found == FoundIn(w, t, a, b)
    ensures FindTask(ReaderOf(w, t), t, a, b) == Pick(found, a, b, LineStart(t, a))
  {
    RegionIs(t, a, b);
  }

  /** The first task found that holds the caret, from its first bracket to just behind its last. */
  lemma {:induction false} FirstUnder(w: World, t: Str, a: nat, b: nat, k: nat)
    requires a <= b <= |t| && IsFirst(FoundIn(w, t, a, b), k, c => Holds(c, a))
    ensures FindTask(ReaderOf(w, t), t, a, b) == Some(FoundIn(w, t, a, b)[k].task)
  {
    var found, ls := FoundIn(w, t, a, b), LineStart(t, a);
    FindIsPick(w, t, a, b, found);
    FirstIs(found, k, c => Holds(c, a));
    PickTests(found, a, b, ls, Some(found[k]), FirstThat(found, c => OnLine(c, ls)));
  }

  /** When none does: the first one that is alone on the line of the caret. */
  lemma {:induction false} FirstAlone(w: World, t: Str, a: nat, b: nat, k: nat)
    requires a <= b <= |t| && NoneOf(FoundIn(w, t, a, b), c => Holds(c, a))
    requires IsFirst(FoundIn(w, t, a, b), k, c => OnLine(c, LineStart(t, a)))
    ensures FindTask(ReaderOf(w, t), t, a, b) == Some(FoundIn(w, t, a, b)[k].task)
  {
    var found, ls := FoundIn(w, t, a, b), LineStart(t, a);
    FindIsPick(w, t, a, b, found);
    NoneIs(found, c => Holds(c, a));
    FirstIs(found, k, c => OnLine(c, ls));
    PickTests(found, a, b, ls, None, Some(found[k]));
  }

  /** When there is none of those either: the first task of a selection, and nothing for a caret. */
  lemma {:induction false} FirstSelected(w: World, t: Str, a: nat, b: nat)
    requires a <= b <= |t| && NoneOf(FoundIn(w, t, a, b), c => Holds(c, a))
    requires NoneOf(FoundIn(w, t, a, b), c => OnLine(c, LineStart(t, a)))
    ensures var found := FoundIn(w, t, a, b);
      FindTask(ReaderOf(w, t), t, a, b) == if b > a && found != [] then Some(found[0].task) else None
  {
    var found, ls := FoundIn(w, t, a, b), LineStart(t, a);
    FindIsPick(w, t, a, b, found);
    NoneIs(found, c => Holds(c, a));
    NoneIs(found, c => OnLine(c, ls));
    PickTests(found, a, b, ls, None, None);
  }

  // ----- the order of the tasks found ----------------------------------------------------------------------

  /** The tasks found come in order and do not overlap. */
  ghost predicate InOrder(found: seq<Candidate>, from: nat) {
    && (forall k :: 0 <= k < |found| ==> from <= found[k].task.start < found[k].task.end)
    && forall j, k :: 0 <= j < k < |found| ==> found[j].task.end <= found[k].task.start
  }

  lemma {:induction false} FoundInOrder(taskAt: Finder, t: Str, from: nat, stop: nat)
    requires stop <= |t|
    ensures InOrder(FoundFrom(taskAt, t, from, stop), from)
    decreases stop - from
  {
    var n := NextPair(t, from, stop);
    if n.Some? {
      match taskAt(n.value)
      case None => FoundInOrder(taskAt, t, n.value + 1, stop);
      case Some(c) =>
        FoundInOrder(taskAt, t, c.task.end, stop);
        OrderMore(c, FoundFrom(taskAt, t, c.task.end, stop), from);
    }
  }

  lemma {:induction false} OrderMore(c: Candidate, rest: seq<Candidate>, from: nat)
    requires from <= c.task.start < c.task.end && InOrder(rest, c.task.end)
    ensures InOrder([c] + rest, from)
  {
    var all := [c] + rest;
    assert forall k :: 0 < k < |all| ==> all[k] == rest[k - 1];
  }

  // ----- the task under the caret, told from the note ------------------------------------------------------

  /** No task found before i reaches the caret. */
  ghost predicate NoneReaches(found: seq<Candidate>, i: nat, a: nat) {
    forall k :: 0 <= k < |found| && found[k].task.start < i ==> found[k].task.end < a
  }

  /**
    A task that stands at i, that no task found before it covers, is the answer for every caret from its first
    bracket to just behind its last, unless one found before it ends right there.
   */
  lemma {:induction false} UnderCaret(w: World, t: Str, a: nat, b: nat, i: nat, end: nat, r: Reading)
    requires a <= b <= |t| && i < |t| && PairStarts(t, i) && StandsAt(w, t, i, end, r) && i <= a <= end
    requires !CoveredBy(FoundIn(w, t, a, b), i) && NoneReaches(FoundIn(w, t, a, b), i, a)
    ensures var task := FindTask(ReaderOf(w, t), t, a, b);
      task.Some? && task.value.start == i && task.value.end == end && Tells(w, t, task.value, r)
  {
    var found := FoundIn(w, t, a, b);
    InRegion(t, a, b, i, end);
    NothingMissed(w, t, LineStart(t, a), TouchedEnd(t, a, b), i, end, r);
    var c :| c in found && c.task.start == i && Tells(w, t, c.task, r);
    var k: nat :| k < |found| && found[k] == c;
    assert c.task.end == end by { ToldEnd(w, t, c.task, i, end, r); }
    FoundInOrder(TasksOf(ReaderOf(w, t), t), t, LineStart(t, a), TouchedEnd(t, a, b));
    forall j | 0 <= j < k ensures !Holds(found[j], a) {
      assert found[j].task.end <= found[k].task.start && found[j].task.start < i;
    }
    FirstUnder(w, t, a, b, k);
  }

  lemma {:induction false} ToldEnd(w: World, t: Str, task: Task, i: nat, end: nat, r: Reading)
    requires task.start == i && i < |t| && Tells(w, t, task, r) && StandsAt(w, t, i, end, r)
    ensures task.end == end
  {
  }

  /** A notation around the caret is on the caret's line. */
  lemma {:induction false} InRegion(t: Str, a: nat, b: nat, i: nat, end: nat)
    requires a <= b <= |t| && i < |t| && NotationEnd(t, i) == Some(end) && i <= a <= end
    ensures LineStart(t, a) <= i && i + 2 <= TouchedEnd(t, a, b)
  {
    var le := LineEnd(t, i);
    assert forall k :: i <= k < a ==> t[k] != LF;
    NextLater(t, a, if b > a then b - 1 else b);
    BreakIs(t, a, NextBreak(t, i));
  }

  lemma {:induction false} NextLater(t: Str, a: nat, b: nat)
    requires a <= b <= |t|
    ensures NextBreak(t, a) <= NextBreak(t, b)
  {
  }

  // ----- what "in inline code" means -----------------------------------------------------------------------

  /** The backticks in [a, b). */
  ghost function TickSet(t: Str, a: nat, b: nat): set<nat>
    requires a <= b <= |t|
  {
    set k: nat | a <= k < b && t[k] == 0x60
  }

  lemma {:induction false} TicksAre(t: Str, a: nat, b: nat)
    requires a <= b <= |t|
    ensures Ticks(t, a, b) == |TickSet(t, a, b)|
  {
    if a < b {
      TicksAre(t, a, b - 1);
      assert t[b - 1] == 0x60 ==> TickSet(t, a, b) == TickSet(t, a, b - 1) + {b - 1};
      assert t[b - 1] != 0x60 ==> TickSet(t, a, b) == TickSet(t, a, b - 1);
    }
  }

  /** An odd number of backticks on the line before it. */
  lemma {:induction false} InlineCodeIs(t: Str, ls: nat, i: nat)
    requires ls <= i <= |t|
    ensures InInlineCode(t, ls, i) <==> exists n: nat :: |TickSet(t, ls, i)| == 2 * n + 1
  {
    TicksAre(t, ls, i);
    var n := |TickSet(t, ls, i)|;
    if n % 2 == 1 { assert n == 2 * (n / 2) + 1; }
  }

  // ----- what "alone on its line" means --------------------------------------------------------------------

  /** Nothing but white space in [from, i) and in [end, le). */
  ghost predicate Bare(s: Str, from: nat, i: nat, end: nat, le: nat) {
    && (forall k :: from <= k < i && k < |s| ==> IsSpace(s[k]))
    && (forall k :: end <= k < le && k < |s| ==> IsSpace(s[k]))
  }

  /** In the note, or in the note with its comments masked. */
  ghost predicate BareThere(w: World, t: Str, from: nat, i: nat, end: nat, le: nat) {
    Bare(t, from, i, end, le) || (Commented(w, t) && Bare(w.comments(t).bare, from, i, end, le))
  }

  lemma {:induction false} BareIsAlone(s: Str, from: nat, i: nat, end: nat, le: nat)
    ensures Alone(s, from, i, end, le) <==> Bare(s, from, i, end, le)
  {
    BlankCut(s, from, i);
    BlankCut(s, end, le);
  }

  lemma {:induction false} BlankCut(s: Str, a: nat, b: nat)
    ensures Trim(Cut(s, a, b)) == [] <==> forall k :: a <= k < b && k < |s| ==> IsSpace(s[k])
  {
    var x := Cut(s, a, b);
    assert forall k :: 0 <= k < |x| ==> x[k] == s[a + k];
    if AllSpace(x) {
      forall k | a <= k < b && k < |s| ensures IsSpace(s[k]) { assert x[k - a] == s[k]; }
    }
  }

  /**
    A task found knows its line, and it is alone on it exactly when there is nothing but white space between the
    prefix of the line and the task and behind it, in the note or in the note with its comments masked.
   */
  lemma {:induction false} FoundPlace(w: World, t: Str, from: nat, stop: nat, c: Candidate)
    requires stop <= |t| && c in FoundFrom(TasksOf(ReaderOf(w, t), t), t, from, stop)
    ensures var i, end := c.task.start, c.task.end;
      && i + 2 <= end <= |t| && c.task.lineStart == LineStart(t, i) && c.task.lineEnd == LineEnd(t, i)
      && c.task.raw == t[i..end]
    ensures var behind := c.task.lineStart + c.task.prefixLen;
      c.wholeLine <==> BareThere(w, t, behind, c.task.start, c.task.end, c.task.lineEnd)
    ensures c.task.start < |t| && c.task.prefixLen
         == var n := PrefixLength(Cut(t, c.task.lineStart, c.task.lineEnd));
            if n < c.task.start - c.task.lineStart then n else c.task.start - c.task.lineStart
  {
    var rd := ReaderOf(w, t);
    var taskAt := TasksOf(rd, t);
    FoundSound(taskAt, t, from, stop, c);
    PlaceParts(rd, t, c, taskAt);
    PlacePrefix(w, t, c, rd, taskAt);
    ReaderReadsAlone(w, t, rd);
    PlaceAlone(w, t, c, rd, taskAt);
  }

  lemma {:induction false} PlaceParts(rd: Reader, t: Str, c: Candidate, taskAt: Finder)
    requires taskAt == TasksOf(rd, t) && taskAt(c.task.start) == Some(c)
    ensures var i, end := c.task.start, c.task.end;
      && i + 2 <= end <= |t| && c.task.lineStart == LineStart(t, i) && c.task.lineEnd == LineEnd(t, i)
      && c.task.raw == t[i..end]
  {
    CandidateParts(rd, t, c.task.start, c, taskAt);
  }

  lemma {:induction false} PlacePrefix(w: World, t: Str, c: Candidate, rd: Reader, taskAt: Finder)
    requires rd == ReaderOf(w, t) && taskAt == TasksOf(rd, t) && taskAt(c.task.start) == Some(c)
    ensures c.task.prefixLen
         == var n := PrefixLength(Cut(t, c.task.lineStart, c.task.lineEnd));
            if n < c.task.start - c.task.lineStart then n else c.task.start - c.task.lineStart
  {
    CandidateParts(rd, t, c.task.start, c, taskAt);
    PrefixMeans(w, t, c, rd, rd.prefix(c.task.lineStart, c.task.lineEnd));
  }

  /** What the reader answers about a range alone on its line. */
  ghost predicate ReadsAlone(w: World, t: Str, rd: Reader) {
    forall from: nat, i: nat, end: nat, le: nat :: rd.alone(from, i, end, le) <==> BareThere(w, t, from, i, end, le)
  }

  lemma {:induction false} ReaderReadsAlone(w: World, t: Str, rd: Reader)
    requires rd == ReaderOf(w, t)
    ensures ReadsAlone(w, t, rd)
  {
    forall from: nat, i: nat, end: nat, le: nat
      ensures rd.alone(from, i, end, le) <==> BareThere(w, t, from, i, end, le)
    {
      AloneMeans(w, t, rd, from, i, end, le);
    }
  }

  lemma {:induction false} PlaceAlone(w: World, t: Str, c: Candidate, rd: Reader, taskAt: Finder)
    requires ReadsAlone(w, t, rd) && taskAt == TasksOf(rd, t) && taskAt(c.task.start) == Some(c)
    ensures var behind := c.task.lineStart + c.task.prefixLen;
      c.wholeLine <==> BareThere(w, t, behind, c.task.start, c.task.end, c.task.lineEnd)
  {
    AlonePart(rd, t, c, taskAt, c.task.lineStart + c.task.prefixLen);
  }

  lemma {:induction false} AlonePart(rd: Reader, t: Str, c: Candidate, taskAt: Finder, behind: nat)
    requires taskAt == TasksOf(rd, t) && taskAt(c.task.start) == Some(c)
    requires behind == c.task.lineStart + c.task.prefixLen
    ensures c.wholeLine == rd.alone(behind, c.task.start, c.task.end, c.task.lineEnd)
  {
    CandidateParts(rd, t, c.task.start, c, taskAt);
  }

  lemma {:induction false} PrefixMeans(w: World, t: Str, c: Candidate, rd: Reader, n: nat)
    requires rd == ReaderOf(w, t) && c.task.lineStart <= c.task.start
    requires n == rd.prefix(c.task.lineStart, c.task.lineEnd)
    requires c.task.prefixLen == if n < c.task.start - c.task.lineStart then n else c.task.start - c.task.lineStart
    ensures c.task.prefixLen
         == var n := PrefixLength(Cut(t, c.task.lineStart, c.task.lineEnd));
            if n < c.task.start - c.task.lineStart then n else c.task.start - c.task.lineStart
  {
    PrefixIs(w, t, rd, c.task.lineStart, c.task.lineEnd);
  }

  lemma {:induction false} AloneMeans(w: World, t: Str, rd: Reader, from: nat, i: nat, end: nat, le: nat)
    requires rd == ReaderOf(w, t)
    ensures rd.alone(from, i, end, le) <==> BareThere(w, t, from, i, end, le)
  {
    BareIsAlone(t, from, i, end, le);
    BareIsAlone(w.comments(t).bare, from, i, end, le);
    AloneIs(w, t, rd, from, i, end, le);
  }

  /** The same, as the reader answers. */
  lemma {:induction false} CandidateParts(rd: Reader, t: Str, i: nat, c: Candidate, taskAt: Finder)
    requires taskAt == TasksOf(rd, t) && taskAt(i) == Some(c)
    ensures i < |t| && c.task.start == i && i + 2 <= c.task.end <= |t| && c.task.raw == t[i..c.task.end]
    ensures c.task.lineStart == LineStart(t, i) && c.task.lineEnd == LineEnd(t, i) && c.task.lineStart <= i
    ensures c.task.prefixLen
         == var n := rd.prefix(c.task.lineStart, c.task.lineEnd);
            if n < i - c.task.lineStart then n else i - c.task.lineStart
    ensures c.wholeLine == rd.alone(c.task.lineStart + c.task.prefixLen, i, c.task.end, c.task.lineEnd)
  {
  }

  lemma {:induction false} PrefixIs(w: World, t: Str, rd: Reader, ls: nat, le: nat)
    requires rd == ReaderOf(w, t)
    ensures rd.prefix(ls, le) == PrefixLength(Cut(t, ls, le))
  {
  }

  lemma {:induction false} AloneIs(w: World, t: Str, rd: Reader, from: nat, i: nat, end: nat, le: nat)
    requires rd == ReaderOf(w, t)
    ensures rd.alone(from, i, end, le)
      == (Alone(t, from, i, end, le) || (Commented(w, t) && Alone(w.comments(t).bare, from, i, end, le)))
  {
  }
}
