/**
  The three task notations, "[[ @llm ... ]]", "[[ $ ... ]]" and "{{ @agent ... }}": how a task is found under the
  caret and how a line is turned into one. The agent list is a function from a typed name to the key it
  resolves to; the comments of a note are what the comment scanner says about it.
 */
module Tasks {
  import opened Text
  import opened Markers
  import opened Fences
  import opened LinePrefix
  import opened Notations

  const AT: CodeUnit := 0x40
  const DOLLAR: CodeUnit := 0x24
  const LOWER_L: CodeUnit := 0x6C
  const LOWER_M: CodeUnit := 0x6D

  /** "claude-code" */
  const DEFAULT_AGENT: Str := [0x63, 0x6C, 0x61, 0x75, 0x64, 0x65, DASH, 0x63, 0x6F, 0x64, 0x65]

  datatype Kind = Llm | Command | Agent {
    function Brackets(): Brackets { if Agent? then Curly else Square }
  }

  // ----- reading -------------------------------------------------------------------------------------------

  /** What the text between the brackets says. */
  datatype Reading = Reading(kind: Kind, instruction: Str, agent: Option<Str>, mention: Option<Str>)

  predicate NameUnit(c: CodeUnit) { !IsSpace(c) && c != COLON }

  predicate Letter(c: CodeUnit, lower: CodeUnit) { c == lower || c == lower - 0x20 }

  /** "@llm" in either case, and then a blank or the end. */
  predicate AtLlm(x: Str) {
    |x| >= 4 && x[0] == AT && Letter(x[1], LOWER_L) && Letter(x[2], LOWER_L) && Letter(x[3], LOWER_M) &&
    (|x| == 4 || IsBlank(x[4]))
  }

  predicate AtDollar(x: Str) {
    |x| >= 1 && x[0] == DOLLAR && (|x| == 1 || IsBlank(x[1]))
  }

  /** An agent is named at the front: the end of its name. */
  function MentionEnd(x: Str): Option<nat> {
    if x == [] || x[0] != AT || RunEnd(x, 1, NameUnit) == 1 then None else Some(RunEnd(x, 1, NameUnit))
  }

  /** Behind blanks and one optional colon. */
  function SkipColon(x: Str, e: nat): (n: nat)
    requires e <= |x|
    ensures e <= n <= |x|
  {
    var c := RunEnd(x, e, IsBlank);
    if c < |x| && x[c] == COLON then c + 1 else c
  }

  type Resolver = Str -> Option<Str>

  function ReadAgent(x: Str, resolve: Resolver): Option<Reading> {
    match MentionEnd(x)
    case None => None
    case Some(e) =>
      match resolve(x[1..e])
      case None => None
      case Some(key) => Some(Reading(Agent, Trim(x[SkipColon(x, e)..]), Some(key), Some(x[1..e])))
  }

  function TaskFromInner(p: Brackets, inner: Str, resolve: Resolver): Option<Reading> {
    var x := inner[RunEnd(inner, 0, IsBlank)..];
    if p.Curly? then ReadAgent(x, resolve)
    else if AtLlm(x) then Some(Reading(Llm, Trim(x[4..]), None, None))
    else if AtDollar(x) then Some(Reading(Command, Trim(x[1..]), None, None))
    else None
  }

  /** What the comment scanner says about a note: any comments, which ranges they spoil, the note without them. */
  datatype Comments = Comments(any: bool, excluded: (nat, nat) -> bool, bare: Str)

  datatype World = World(resolve: Resolver, comments: Str -> Comments)

  predicate Commented(w: World, t: Str) {
    HasOpen(t) && w.comments(t).any
  }

  datatype Task = Task(kind: Kind, start: nat, end: nat, lineStart: nat, lineEnd: nat, prefixLen: nat,
        brackets: Brackets, instruction: Str, agent: Option<Str>, mention: Option<Str>, raw: Str)

  /** A task and whether it is all there is on its line. */
  datatype Candidate = Candidate(task: Task, wholeLine: bool)

  /** A slice whose bounds may lie outside. */
  function Cut(s: Str, a: nat, b: nat): Str {
    var e := if b < |s| then b else |s|;
    if a < e then s[a..e] else []
  }

  function Ticks(t: Str, a: nat, b: nat): nat
    requires a <= b <= |t|
  {
    if a == b then 0 else Ticks(t, a, b - 1) + if t[b - 1] == BACKTICK then 1 else 0
  }

  predicate InInlineCode(t: Str, ls: nat, i: nat)
    requires ls <= i <= |t|
  {
    Ticks(t, ls, i) % 2 == 1
  }

  /** Nothing but white space around [i, end) between the prefix and the end of the line. */
  predicate Alone(t: Str, from: nat, i: nat, end: nat, le: nat) {
    Trim(Cut(t, from, i)) == [] && Trim(Cut(t, end, le)) == []
  }

  /**
    What the finder asks about a text: how the inside of a notation reads, whether an index is in inline code,
    the fences, whether a comment spoils a range, how long the prefix of a line is, and whether a range is
    alone on its line.
   */
  datatype Reader = Reader(read: (Brackets, Str) -> Option<Reading>, ticked: nat -> bool, fences: FenceAt,
                           spoilt: (nat, nat) -> bool, prefix: (nat, nat) -> nat, alone: (nat, nat, nat, nat) -> bool)

  function ReaderOf(w: World, t: Str): Reader {
    Reader(
      (p: Brackets, inner: Str) => TaskFromInner(p, inner, w.resolve),
      (i: nat) => i <= |t| && InInlineCode(t, LineStart(t, i), i),
      FencesOf(t),
      (i: nat, end: nat) => Commented(w, t) && w.comments(t).excluded(i, end),
      (ls: nat, le: nat) => PrefixLength(Cut(t, ls, le)),
      (from: nat, i: nat, end: nat, le: nat) =>
        Alone(t, from, i, end, le) || (Commented(w, t) && Alone(w.comments(t).bare, from, i, end, le)))
  }

  function CandidateAt(rd: Reader, t: Str, ls: nat, le: nat, i: nat, end: nat, r: Reading): (c: Candidate)
    requires ls <= i < |t|
  {
    var len := rd.prefix(ls, le);
    var prefixLen := if len < i - ls then len else i - ls;
    Candidate(
      Task(r.kind, i, end, ls, le, prefixLen, BracketsAt(t, i), r.instruction, r.agent, r.mention, Cut(t, i, end)),
      rd.alone(ls + prefixLen, i, end, le))
  }

  predicate PairStarts(t: Str, i: nat) {
    PairAt(t, i, Square.Open()) || PairAt(t, i, Curly.Open())
  }

  function BracketsAt(t: Str, i: nat): Brackets
    requires i < |t|
  {
    if t[i] == Square.Open() then Square else Curly
  }

  /** Where the notation that opens at i ends on its line. */
  function NotationEnd(t: Str, i: nat): (end: Option<nat>)
    requires i < |t|
    ensures end.Some? ==> i + 2 <= end.value <= LineEnd(t, i)
  {
    match CloseOf(BracketsAt(t, i), t[i..LineEnd(t, i)], 0, 0)
    case None => None
    case Some(n) => Some(i + n)
  }

  /** The task whose brackets open at i; inline code, a fence or a comment keeps it from being one. */
  function TaskAt(rd: Reader, t: Str, i: nat): (r: Option<Candidate>)
    requires i < |t|
    ensures r.Some? ==> r.value.task.start == i && i + 2 <= r.value.task.end <= LineEnd(t, i)
  {
    match NotationEnd(t, i)
    case None => None
    case Some(end) =>
      match rd.read(BracketsAt(t, i), Cut(t, i + 2, end - 2))
      case None => None
      case Some(r) =>
        if rd.ticked(i) || InFence(t, rd.fences, i) || rd.spoilt(i, end) then None
        else Some(CandidateAt(rd, t, LineStart(t, i), LineEnd(t, i), i, end, r))
  }

  /** The first two of c in [from, stop). */
  function IndexOfPair(t: Str, c: CodeUnit, from: nat, stop: nat): (r: Option<nat>)
    requires stop <= |t|
    ensures r.Some? ==> from <= r.value && r.value + 2 <= stop && PairAt(t, r.value, c)
    ensures r.None? ==> forall k :: from <= k && k + 2 <= stop ==> !PairAt(t, k, c)
    ensures r.Some? ==> forall k :: from <= k < r.value ==> !PairAt(t, k, c)
    decreases stop - from
  {
    if from + 2 > stop then None
    else if PairAt(t, from, c) then Some(from)
    else IndexOfPair(t, c, from + 1, stop)
  }

  /** The first two opening brackets of either kind. */
  function NextPair(t: Str, from: nat, stop: nat): (r: Option<nat>)
    requires stop <= |t|
    ensures r.Some? ==> from <= r.value && r.value + 2 <= stop && PairStarts(t, r.value)
    ensures r.None? ==> forall k :: from <= k && k + 2 <= stop ==> !PairStarts(t, k)
    ensures r.Some? ==> forall k :: from <= k < r.value ==> !PairStarts(t, k)
  {
    var p1, p2 := IndexOfPair(t, Square.Open(), from, stop), IndexOfPair(t, Curly.Open(), from, stop);
    if p1.None? then p2 else if p2.None? || p1.value < p2.value then p1 else p2
  }

  ghost predicate Forward(f: nat -> Option<Candidate>) {
    forall i: nat :: f(i).Some? ==> f(i).value.task.start == i && i < f(i).value.task.end
  }

  /** The task, if any, whose brackets open at an index. */
  type Finder = f: nat -> Option<Candidate> | Forward(f) witness (i: nat) => None

  function TasksOf(rd: Reader, t: Str): Finder {
    (i: nat) => if i < |t| then TaskAt(rd, t, i) else None
  }

  /** Every task in [from, stop), in order; the search goes on behind each. */
  function FoundFrom(taskAt: Finder, t: Str, from: nat, stop: nat): seq<Candidate>
    requires stop <= |t|
    decreases stop - from
  {
    match NextPair(t, from, stop)
    case None => []
    case Some(i) =>
      match taskAt(i)
      case None => FoundFrom(taskAt, t, i + 1, stop)
      case Some(c) => [c] + FoundFrom(taskAt, t, c.task.end, stop)
  }

  function FirstThat(found: seq<Candidate>, test: Candidate -> bool): (r: Option<Candidate>)
    ensures r.Some? ==> r.value in found && test(r.value)
    ensures r.None? ==> forall c :: c in found ==> !test(c)
  {
    if found == [] then None else if test(found[0]) then Some(found[0]) else FirstThat(found[1..], test)
  }

  /** The task that holds the caret, the one alone on the caret's line, or the first of a selection. */
  function Pick(found: seq<Candidate>, a: nat, b: nat, firstLs: nat): Option<Task> {
    var under := FirstThat(found, (c: Candidate) => c.task.start <= a <= c.task.end);
    var alone := FirstThat(found, (c: Candidate) => c.wholeLine && c.task.lineStart == firstLs);
    if under.Some? then Some(under.value.task)
    else if alone.Some? then Some(alone.value.task)
    else if b > a && found != [] then Some(found[0].task)
    else None
  }

  function RegionStop(t: Str, a: nat, b: nat): (stop: nat)
    requires a <= b <= |t|
    ensures LineStart(t, a) <= stop <= |t|
  {
    if b > a && b == LineStart(t, b) then SelectedStop(t, a, b); b - 1 else NextBreak(t, b)
  }

  lemma {:induction false} SelectedStop(t: Str, a: nat, b: nat)
    requires a < b <= |t| && b == LineStart(t, b)
    ensures LineStart(t, a) <= b - 1
  {
  }

  function FindTask(rd: Reader, t: Str, a: nat, b: nat): Option<Task>
    requires a <= b <= |t|
  {
    var firstLs := LineStart(t, a);
    Pick(FoundFrom(TasksOf(rd, t), t, firstLs, RegionStop(t, a, b)), a, b, firstLs)
  }

  // ----- the loop ------------------------------------------------------------------------------------------

  /** Two indices of one line have the same bounds. */
  lemma {:induction false} SameLine(t: Str, i: nat, k: nat)
    requires i <= |t| && i <= k < LineEnd(t, i)
    ensures LineStart(t, k) == LineStart(t, i) && LineEnd(t, k) == LineEnd(t, i)
    decreases k - i
  {
    if i < k {
      SameLine(t, i, k - 1);
      assert t[k - 1] != LF;
    }
  }

  /** The bounds of a line hold for every index from `from` to its end. */
  ghost predicate BoundsHold(t: Str, from: nat, ls: nat, le: nat) {
    forall k :: from <= k < le ==> k < |t| && LineStart(t, k) == ls && LineEnd(t, k) == le
  }

  method FindEnd(t: Str, i: nat, le: nat) returns (end: Option<nat>)
    requires i < |t| && le == LineEnd(t, i)
    ensures end == NotationEnd(t, i)
  {
    var n := ParseNotation(BracketsAt(t, i), t[i..le]);
    end := if n.None? then None else Some(i + n.value);
  }

  /** One candidate; the scanner answers for the fences. */
  method ReadCandidate(rd: Reader, t: Str, i: nat, ls: nat, le: nat, scanner: FenceScanner)
    returns (c: Option<Candidate>)
    requires i < |t| && ls == LineStart(t, i) && le == LineEnd(t, i)
    requires scanner.Valid() && scanner.text == t && scanner.fences == rd.fences
    modifies scanner
    ensures scanner.Valid() && c == TaskAt(rd, t, i)
  {
    var notation := FindEnd(t, i, le);
    if notation.None? { return None; }
    var end := notation.value;
    var r := rd.read(BracketsAt(t, i), Cut(t, i + 2, end - 2));
    if r.None? || rd.ticked(i) { return None; }
    var inFence := scanner.Query(i);
    if inFence || rd.spoilt(i, end) { return None; }
    c := Some(CandidateAt(rd, t, ls, le, i, end, r.value));
    TaskFrom(rd, t, i, end, r.value);
  }

  lemma {:induction false} TaskFrom(rd: Reader, t: Str, i: nat, end: nat, r: Reading)
    requires i < |t| && NotationEnd(t, i) == Some(end) && rd.read(BracketsAt(t, i), Cut(t, i + 2, end - 2)) == Some(r)
    requires !rd.ticked(i) && !InFence(t, rd.fences, i) && !rd.spoilt(i, end)
    ensures TaskAt(rd, t, i) == Some(CandidateAt(rd, t, LineStart(t, i), LineEnd(t, i), i, end, r))
  {
  }

  method ReadAt(rd: Reader, t: Str, from: nat, i: nat, oldLs: nat, oldLe: nat, scanner: FenceScanner)
    returns (c: Option<Candidate>, ls: nat, le: nat)
    requires from <= i < |t| && BoundsHold(t, from, oldLs, oldLe)
    requires scanner.Valid() && scanner.text == t && scanner.fences == rd.fences
    modifies scanner
    ensures scanner.Valid() && c == TasksOf(rd, t)(i) && BoundsHold(t, i, ls, le)
  {
    ls, le := LineBounds(t, from, i, oldLs, oldLe);
    c := ReadCandidate(rd, t, i, ls, le, scanner);
  }

  /** The tasks of a region in order; the bounds of a line are looked up once, the fences by one scanner. */
  method CollectTasks(rd: Reader, t: Str, first: nat, stop: nat) returns (found: seq<Candidate>)
    requires first <= stop <= |t|
    ensures found == FoundFrom(TasksOf(rd, t), t, first, stop)
  {
    found := [];
    var from, ls, le: nat := first, 0, 0;
    var scanner := new FenceScanner(t, rd.fences);
    ghost var taskAt := TasksOf(rd, t);
    while from < stop
      invariant scanner.Valid() && scanner.text == t && scanner.fences == rd.fences && fresh(scanner)
      invariant BoundsHold(t, from, ls, le)
      invariant found + FoundFrom(taskAt, t, from, stop) == FoundFrom(taskAt, t, first, stop)
      decreases stop - from
    {
      var next := NextPair(t, from, stop);
      if next.None? { break; }
      var i: nat := next.value;
      var c;
      c, ls, le := ReadAt(rd, t, from, i, ls, le, scanner);
      FoundStep(taskAt, t, first, from, stop, found, i, c);
      found, from := found + Taken(c), Behind(i, c);
    }
  }

  function Taken(c: Option<Candidate>): seq<Candidate> {
    if c.None? then [] else [c.value]
  }

  /** The search goes on behind a task, or one unit further. */
  function Behind(i: nat, c: Option<Candidate>): nat {
    if c.None? then i + 1 else c.value.task.end
  }

  /** One candidate further: what is found so far and what is still to come make the whole. */
  lemma {:induction false} FoundStep(taskAt: Finder, t: Str, first: nat, from: nat, stop: nat, found: seq<Candidate>,
        i: nat, c: Option<Candidate>)
    requires first <= stop <= |t| && NextPair(t, from, stop) == Some(i) && taskAt(i) == c
    requires found + FoundFrom(taskAt, t, from, stop) == FoundFrom(taskAt, t, first, stop)
    ensures i < Behind(i, c)
    ensures (found + Taken(c)) + FoundFrom(taskAt, t, Behind(i, c), stop) == FoundFrom(taskAt, t, first, stop)
  {
    AppendStep(found, Taken(c), FoundFrom(taskAt, t, Behind(i, c), stop));
    assert FoundFrom(taskAt, t, from, stop) == Taken(c) + FoundFrom(taskAt, t, Behind(i, c), stop);
  }

  /** The bounds of the line of i, looked up only when i is past the line known so far. */
  method LineBounds(t: Str, from: nat, i: nat, oldLs: nat, oldLe: nat) returns (ls: nat, le: nat)
    requires from <= i < |t| && BoundsHold(t, from, oldLs, oldLe)
    ensures ls == LineStart(t, i) && le == LineEnd(t, i) && BoundsHold(t, i, ls, le)
  {
    ls, le := oldLs, oldLe;
    if i >= le {
      ls, le := LineStart(t, i), LineEnd(t, i);
      BoundsFrom(t, i);
    }
  }

  lemma {:induction false} BoundsFrom(t: Str, i: nat)
    requires i < |t|
    ensures BoundsHold(t, i, LineStart(t, i), LineEnd(t, i))
  {
    forall k | i <= k < LineEnd(t, i)
      ensures k < |t| && LineStart(t, k) == LineStart(t, i) && LineEnd(t, k) == LineEnd(t, i)
    {
      SameLine(t, i, k);
    }
  }

  /** The task under the caret, or under a selection whose ends may come in any order and anywhere. */
  method FindTaskAt(w: World, t: Str, caret: int, endCaret: Option<int>) returns (r: Option<Task>)
    ensures var a := Clamp(caret, |t|);
      var b := if endCaret.None? then a else Clamp(endCaret.value, |t|);
      r == if b < a then FindTask(ReaderOf(w, t), t, b, a) else FindTask(ReaderOf(w, t), t, a, b)
  {
    var a := Clamp(caret, |t|);
    var b := if endCaret.None? then a else Clamp(endCaret.value, |t|);
    if b < a { a, b := b, a; }
    r := FindIn(ReaderOf(w, t), t, a, b);
  }

  method FindIn(rd: Reader, t: Str, a: nat, b: nat) returns (r: Option<Task>)
    requires a <= b <= |t|
    ensures r == FindTask(rd, t, a, b)
  {
    var firstLs := LineStart(t, a);
    var found := CollectTasks(rd, t, firstLs, RegionStop(t, a, b));
    r := Pick(found, a, b, firstLs);
  }

  // ----- what is found -------------------------------------------------------------------------------------

  /** Every task found is the task its own brackets read as. */
  lemma {:induction false} FoundSound(taskAt: Finder, t: Str, from: nat, stop: nat, c: Candidate)
    requires stop <= |t| && c in FoundFrom(taskAt, t, from, stop)
    ensures from <= c.task.start && c.task.start + 2 <= stop && PairStarts(t, c.task.start)
    ensures taskAt(c.task.start) == Some(c)
    decreases stop - from
  {
    var i := NextPair(t, from, stop).value;
    match taskAt(i)
    case None => FoundSound(taskAt, t, i + 1, stop, c);
    case Some(first) =>
      if c != first { FoundSound(taskAt, t, first.task.end, stop, c); }
  }

  /** An earlier task of those found covers i. */
  ghost predicate CoveredBy(found: seq<Candidate>, i: nat) {
    exists k :: 0 <= k < |found| && found[k].task.start < i < found[k].task.end
  }

  /** Every task of the region that no earlier one covers is found. */
  lemma {:induction false} FoundComplete(taskAt: Finder, t: Str, from: nat, stop: nat, i: nat)
    requires from <= i && i + 2 <= stop <= |t| && PairStarts(t, i) && taskAt(i).Some?
    ensures var found := FoundFrom(taskAt, t, from, stop);
      taskAt(i).value in found || CoveredBy(found, i)
    decreases stop - from
  {
    var n := NextPair(t, from, stop).value;
    var found := FoundFrom(taskAt, t, from, stop);
    if n < i {
      match taskAt(n)
      case None => FoundComplete(taskAt, t, n + 1, stop, i);
      case Some(c) =>
        var rest := FoundFrom(taskAt, t, c.task.end, stop);
        assert found == [c] + rest && found[0].task.start == n;
        if c.task.end <= i {
          FoundComplete(taskAt, t, c.task.end, stop, i);
          CoveredMore(c, rest, found, i);
        }
    }
  }

  lemma {:induction false} CoveredMore(c: Candidate, rest: seq<Candidate>, found: seq<Candidate>, i: nat)
    requires found == [c] + rest
    ensures CoveredBy(rest, i) ==> CoveredBy(found, i)
    ensures forall x :: x in rest ==> x in found
  {
    forall k | 0 <= k < |rest| && rest[k].task.start < i < rest[k].task.end ensures CoveredBy(found, i) {
      assert found[k + 1] == rest[k];
    }
  }

  /** A task stands at i: it ends and reads as one, and no inline code, fence or comment keeps it from being one. */
  ghost predicate StandsAt(w: World, t: Str, i: nat, end: nat, r: Reading)
    requires i < |t|
  {
    && NotationEnd(t, i) == Some(end) && TaskFromInner(BracketsAt(t, i), Cut(t, i + 2, end - 2), w.resolve) == Some(r)
    && !InInlineCode(t, LineStart(t, i), i) && !InFence(t, FencesOf(t), i)
    && !(Commented(w, t) && w.comments(t).excluded(i, end))
  }

  /** A task says what stands in its place. */
  ghost predicate Tells(w: World, t: Str, task: Task, r: Reading) {
    task.start < |t| && StandsAt(w, t, task.start, task.end, r) && Says(task, r)
  }

  predicate Says(task: Task, r: Reading) {
    task.kind == r.kind && task.instruction == r.instruction && task.agent == r.agent && task.mention == r.mention
  }

  /** The same, asked of a reader. */
  ghost predicate Read(rd: Reader, t: Str, i: nat, end: nat, r: Reading)
    requires i < |t|
  {
    && NotationEnd(t, i) == Some(end) && rd.read(BracketsAt(t, i), Cut(t, i + 2, end - 2)) == Some(r)
    && !rd.ticked(i) && !InFence(t, rd.fences, i) && !rd.spoilt(i, end)
  }

  lemma {:induction false} ReadIsThere(w: World, t: Str, i: nat, end: nat, r: Reading)
    requires i < |t|
    ensures Read(ReaderOf(w, t), t, i, end, r) <==> StandsAt(w, t, i, end, r)
  {
    var rd := ReaderOf(w, t);
    if end < i + 2 { return; }
    assert rd.read(BracketsAt(t, i), Cut(t, i + 2, end - 2)) == TaskFromInner(BracketsAt(t, i),
      Cut(t, i + 2, end - 2), w.resolve);
    assert rd.ticked(i) == InInlineCode(t, LineStart(t, i), i) && rd.fences == FencesOf(t);
    assert rd.spoilt(i, end) == (Commented(w, t) && w.comments(t).excluded(i, end));
  }

  lemma {:induction false} CandidateMeans(rd: Reader, t: Str, i: nat, r: Reading, end: nat)
    requires i < |t|
    ensures var c := TaskAt(rd, t, i);
      && (Read(rd, t, i, end, r) ==> c.Some? && c.value.task.end == end)
      && (c.Some? && c.value.task.end == end ==> exists x :: Read(rd, t, i, end, x) && Says(c.value.task, x))
  {
    var c := TaskAt(rd, t, i);
    if c.Some? && c.value.task.end == end {
      var x := rd.read(BracketsAt(t, i), Cut(t, i + 2, end - 2));
      assert x.Some? && Read(rd, t, i, end, x.value) && Says(c.value.task, x.value);
    }
  }

  /** The candidate at an index tells what stands there, and there is none exactly when nothing does. */
  lemma {:induction false} TaskMeans(w: World, t: Str, i: nat)
    requires i < |t|
    ensures match TasksOf(ReaderOf(w, t), t)(i)
      case None => forall end, r :: !StandsAt(w, t, i, end, r)
      case Some(c) => exists r :: Tells(w, t, c.task, r)
  {
    var rd := ReaderOf(w, t);
    var c := TaskAt(rd, t, i);
    assert TasksOf(rd, t)(i) == c;
    if c.Some? {
      CandidateMeans(rd, t, i, Reading(Llm, [], None, None), c.value.task.end);
      var x :| Read(rd, t, i, c.value.task.end, x) && Says(c.value.task, x);
      ReadIsThere(w, t, i, c.value.task.end, x);
      assert Tells(w, t, c.value.task, x);
    } else {
      forall end, r ensures !StandsAt(w, t, i, end, r) {
        ReadIsThere(w, t, i, end, r);
        CandidateMeans(rd, t, i, r, end);
      }
    }
  }

  /** What is found in a region stands there, outside inline code, fences and comments. */
  lemma {:induction false} FoundMeans(w: World, t: Str, from: nat, stop: nat, c: Candidate)
    requires stop <= |t| && c in FoundFrom(TasksOf(ReaderOf(w, t), t), t, from, stop)
    ensures from <= c.task.start && c.task.start + 2 <= stop && PairStarts(t, c.task.start)
    ensures exists r :: Tells(w, t, c.task, r)
  {
    FoundSound(TasksOf(ReaderOf(w, t), t), t, from, stop, c);
    TaskMeans(w, t, c.task.start);
  }

  /** And nothing that stands there is missed, unless an earlier task covers it. */
  lemma {:induction false} NothingMissed(w: World, t: Str, from: nat, stop: nat, i: nat, end: nat, r: Reading)
    requires from <= i && i + 2 <= stop <= |t| && PairStarts(t, i) && StandsAt(w, t, i, end, r)
    ensures var found := FoundFrom(TasksOf(ReaderOf(w, t), t), t, from, stop);
      (exists c :: c in found && c.task.start == i && Tells(w, t, c.task, r)) || CoveredBy(found, i)
  {
    var c := OnlyReading(w, t, i, end, r);
    MissedNot(TasksOf(ReaderOf(w, t), t), t, from, stop, i, c);
  }

  lemma {:induction false} MissedNot(taskAt: Finder, t: Str, from: nat, stop: nat, i: nat, c: Candidate)
    requires from <= i && i + 2 <= stop <= |t| && PairStarts(t, i) && taskAt(i) == Some(c)
    ensures c in FoundFrom(taskAt, t, from, stop) || CoveredBy(FoundFrom(taskAt, t, from, stop), i)
  {
    FoundComplete(taskAt, t, from, stop, i);
  }

  lemma {:induction false} OnlyReading(w: World, t: Str, i: nat, end: nat, r: Reading) returns (c: Candidate)
    requires i < |t| && StandsAt(w, t, i, end, r)
    ensures TasksOf(ReaderOf(w, t), t)(i) == Some(c) && c.task.start == i && Tells(w, t, c.task, r)
  {
    TaskMeans(w, t, i);
    c := TasksOf(ReaderOf(w, t), t)(i).value;
    var x :| Tells(w, t, c.task, x);
    assert c.task.start == i by { assert Forward(TasksOf(ReaderOf(w, t), t)); }
    ReadIsThere(w, t, i, end, r);
    ReadIsThere(w, t, i, c.task.end, x);
    OneReading(ReaderOf(w, t), t, i, end, r, c.task.end, x);
  }

  lemma {:induction false} OneReading(rd: Reader, t: Str, i: nat, end: nat, r: Reading, end2: nat, x: Reading)
    requires i < |t| && Read(rd, t, i, end, r) && Read(rd, t, i, end2, x)
    ensures end == end2 && r == x
  {
  }
}
