/** A decorated line is found again as the task it was made into, from anywhere on it. */
module TaskRoundTrip {
  import opened Text
  import opened Markers
  import opened Fences
  import opened LinePrefix
  import opened Notations
  import opened BracketRuns
  import opened Tasks
  import opened TaskWriting

  // ----- what stands between the brackets reads back -------------------------------------------------------

  /** The reading a written task should have; only an agent is resolved. */
  function Meant(kind: Kind, name: Str, key: Option<Str>, body: Str): Reading {
    Reading(kind, body, if kind.Agent? then key else None, if kind.Agent? then Some(name) else None)
  }

  /** An agent's instruction must not start with the colon its name may end in. */
  predicate ColonFree(kind: Kind, body: Str) {
    kind.Agent? ==> body == [] || body[0] != COLON
  }

  lemma {:induction false} TrimInstruction(body: Str, x: Str)
    requires Plain(body) && x == [SPACE] + (body + [SPACE])
    ensures Trim(x) == body
  {
    TrimCore([SPACE], body, [SPACE]);
    assert x == [SPACE] + body + [SPACE];
  }

  /** Blanks in front of something that is none. */
  lemma {:induction false} OneBlank(rest: Str)
    requires rest != [] && !IsBlank(rest[0])
    ensures RunEnd([SPACE] + rest, 0, IsBlank) == 1 && ([SPACE] + rest)[1..] == rest
  {
    var s := [SPACE] + rest;
    assert s[1] == rest[0];
    RunEndIs(s, 0, 1, IsBlank);
  }

  lemma {:induction false} ReadsLlm(body: Str, resolve: Resolver)
    requires Plain(body)
    ensures TaskFromInner(Square, (Head(Llm, []) + body) + [SPACE], resolve) == Some(Reading(Llm, body, None, None))
  {
    var said: Str, rest := [AT, LOWER_L, LOWER_L, LOWER_M], [SPACE] + (body + [SPACE]);
    var x := said + rest;
    assert (Head(Llm, []) + body) + [SPACE] == [SPACE] + x;
    OneBlank(x);
    assert AtLlm(x) && x[4..] == rest;
    TrimInstruction(body, rest);
  }

  lemma {:induction false} ReadsCommand(body: Str, resolve: Resolver)
    requires Plain(body)
    ensures TaskFromInner(Square, (Head(Command, []) + body) + [SPACE],
      resolve) == Some(Reading(Command, body, None, None))
  {
    var rest := [SPACE] + (body + [SPACE]);
    var x := [DOLLAR] + rest;
    assert (Head(Command, []) + body) + [SPACE] == [SPACE] + x;
    OneBlank(x);
    assert !AtLlm(x) && AtDollar(x) && x[1..] == rest;
    TrimInstruction(body, rest);
  }

  lemma {:induction false} MentionParts(name: Str, body: Str, x: Str, e: nat)
    requires Plain(body) && name != [] && (forall k :: 0 <= k < |name| ==> NameUnit(name[k]))
    requires x == [AT] + (name + ([SPACE] + (body + [SPACE]))) && e == 1 + |name|
    ensures MentionEnd(x) == Some(e) && x[1..e] == name && x[e..] == [SPACE] + (body + [SPACE])
    ensures SkipColon(x, e) == if body[0] == COLON then e + 2 else e + 1
  {
    assert forall k :: 1 <= k < e ==> x[k] == name[k - 1];
    assert x[e] == SPACE && x[e + 1] == body[0];
    RunEndIs(x, 1, e, NameUnit);
    RunEndIs(x, e, e + 1, IsBlank);
  }

  lemma {:induction false} InstructionLeft(body: Str, x: Str, e: nat, n: nat)
    requires Plain(body) && e <= |x| && x[e..] == [SPACE] + (body + [SPACE]) && n == if body[0] == COLON then e + 2
      else e + 1
    ensures n <= |x| && (Trim(x[n..]) == body <==> body[0] != COLON)
  {
    if body[0] == COLON {
      ColonTaken(body, x, e);
    } else {
      assert x[e + 1..] == body + [SPACE];
      TrimCore([], body, [SPACE]);
      assert [] + body + [SPACE] == body + [SPACE];
    }
  }

  lemma {:induction false} ReadsAgent(name: Str, body: Str, resolve: Resolver, key: Str)
    requires Plain(body) && name != [] && (forall k :: 0 <= k < |name| ==> NameUnit(name[k])) &&
      resolve(name) == Some(key)
    ensures var r := TaskFromInner(Curly, (Head(Agent, name) + body) + [SPACE], resolve);
      r.Some? && (r == Some(Reading(Agent, body, Some(key), Some(name))) <==> body[0] != COLON)
  {
    var rest := [SPACE] + (body + [SPACE]);
    var x, e := [AT] + (name + rest), 1 + |name|;
    assert (Head(Agent, name) + body) + [SPACE] == [SPACE] + x by { AgentInner(name, body); }
    assert TaskFromInner(Curly, [SPACE] + x, resolve) == ReadAgent(x, resolve) by { OneBlank(x); }
    MentionParts(name, body, x, e);
    InstructionLeft(body, x, e, SkipColon(x, e));
  }

  lemma {:induction false} AgentInner(name: Str, body: Str)
    ensures (Head(Agent, name) + body) + [SPACE] == [SPACE] + ([AT] + (name + ([SPACE] + (body + [SPACE]))))
  {
  }

  /** With the colon gone the instruction is shorter. */
  lemma {:induction false} ColonTaken(body: Str, x: Str, e: nat)
    requires Plain(body) && e < |x| && x[e..] == [SPACE] + (body + [SPACE])
    ensures e + 2 <= |x| && Trim(x[e + 2..]) != body
  {
    var left := x[e + 2..];
    assert left == body[1..] + [SPACE];
    TrimShorter(left);
  }

  lemma {:induction false} TrimShorter(s: Str)
    requires s != [] && IsSpace(s[|s| - 1])
    ensures |Trim(s)| < |s|
  {
  }

  lemma {:induction false} ReadsBack(kind: Kind, name: Str, body: Str, resolve: Resolver)
    requires Plain(body) && name != [] && (forall k :: 0 <= k < |name| ==> NameUnit(name[k]))
    requires kind.Agent? ==> resolve(name).Some?
    ensures (TaskFromInner(kind.Brackets(), (Head(kind, name) + body) + [SPACE], resolve)
          == Some(Meant(kind, name, resolve(name), body))) <==> ColonFree(kind, body)
  {
    match kind
    case Llm => ReadsLlm(body, resolve);
    case Command => ReadsCommand(body, resolve);
    case Agent => ReadsAgent(name, body, resolve, resolve(name).value);
  }

  // ----- the head has no brackets --------------------------------------------------------------------------

  /** A name without doubled braces. */
  ghost predicate QuietName(name: Str) {
    !HasPair(name, Curly.Open()) && !HasPair(name, Curly.Close())
  }

  lemma {:induction false} HeadQuiet(kind: Kind, name: Str)
    requires kind.Agent? ==> QuietName(name)
    ensures var p := kind.Brackets(); !HasPair(Head(kind, name), p.Open()) && !HasPair(Head(kind, name), p.Close())
    ensures Head(kind, name) != [] && Head(kind, name)[|Head(kind, name)| - 1] == SPACE
  {
    if kind.Agent? {
      AgentHeadQuiet(name, Curly.Open());
      AgentHeadQuiet(name, Curly.Close());
    }
  }

  lemma {:induction false} AgentHeadQuiet(name: Str, c: CodeUnit)
    requires !HasPair(name, c) && c != SPACE && c != AT
    ensures !HasPair([SPACE, AT] + (name + [SPACE]), c)
  {
    if name != [] { PairOfCons(name, [SPACE], c); }
    assert !HasPair([SPACE], c) && !HasPair([SPACE, AT], c);
    PairOfCons([SPACE, AT], name + [SPACE], c);
  }

  /** The notation ends where it was written to end exactly when the instruction nests. */
  lemma {:induction false} WrittenEnds(kind: Kind, name: Str, body: Str, notation: Str)
    requires (kind.Agent? ==> QuietName(name)) && notation == NotationOf(kind, name, body)
    ensures CloseOf(kind.Brackets(), notation, 0, 0) == Some(|notation|) <==> Nests(kind.Brackets(), body)
  {
    var p := kind.Brackets();
    NotationEnds(p, Head(kind, name) + body, notation);
    HeadQuiet(kind, name);
    NestsBehind(p, Head(kind, name), body);
  }

  // ----- the line in its note ------------------------------------------------------------------------------

  /** A line of a note: what is before it ends a line, and what is after it is another. */
  ghost predicate Placed(t: Str, ls: nat, line: Str, post: Str) {
    && ls <= |t| && IsLineStart(t, ls) && t[ls..] == line + post && EndsLine(post)
    && NoBreak(line) && line != [] && line[|line| - 1] != CR
  }

  lemma {:induction false} PlacedAt(pre: Str, line: Str, post: Str, t: Str)
    requires (pre == [] || pre[|pre| - 1] == LF) && EndsLine(post) && t == pre + (line + post)
    requires NoBreak(line) && line != [] && line[|line| - 1] != CR
    ensures Placed(t, |pre|, line, post) && |t| >= |pre| + |line|
  {
    assert t[|pre|..] == line + post;
  }

  lemma {:induction false} UnitsOfLine(t: Str, ls: nat, line: Str, post: Str, k: nat)
    requires Placed(t, ls, line, post) && k < |line|
    ensures ls + |line| <= |t| && t[ls + k] == line[k]
  {
    assert t[ls..][k] == line[k];
  }

  /** Every index of the line knows its bounds, and its region ends with it. */
  lemma {:induction false} LineOfIndex(t: Str, ls: nat, line: Str, post: Str, i: nat)
    requires Placed(t, ls, line, post) && ls <= i <= ls + |line|
    ensures ls + |line| <= |t| && LineStart(t, i) == ls
    ensures ls + |line| <= RegionStop(t, i, i) <= ls + |line| + 1
    ensures i < ls + |line| ==> LineEnd(t, i) == ls + |line|
  {
    var n := |line|;
    assert n <= |t[ls..]|;
    assert forall k :: ls <= k < ls + n ==> t[k] != LF by {
      forall k | ls <= k < ls + n ensures t[k] != LF { UnitsOfLine(t, ls, line, post, k - ls); }
    }
    LineStartIs(t, i, ls);
    RegionOfIndex(t, ls, line, post, i);
    if i < ls + n {
      UnitsOfLine(t, ls, line, post, n - 1);
      EndOfIndex(t, ls, line, post, i);
    }
  }

  lemma {:induction false} RegionOfIndex(t: Str, ls: nat, line: Str, post: Str, i: nat)
    requires Placed(t, ls, line, post) && ls <= i <= ls + |line| <= |t|
    requires forall k :: ls <= k < ls + |line| ==> t[k] != LF
    ensures ls + |line| <= NextBreak(t, i) <= ls + |line| + 1
  {
    var stop := if post != [] && post[0] == CR then ls + |line| + 1 else ls + |line|;
    BehindLine(t, ls, line, post, stop);
    BreakIs(t, i, stop);
  }

  lemma {:induction false} EndOfIndex(t: Str, ls: nat, line: Str, post: Str, i: nat)
    requires Placed(t, ls, line, post) && ls <= i < ls + |line| <= |t|
    ensures LineEnd(t, i) == ls + |line|
  {
    var k := i - ls;
    DropDrop(t, ls, k);
    assert t[i..] == line[k..] + post;
    assert line[k..] != [] && line[k..][|line| - k - 1] == line[|line| - 1];
    LineIs(t, i, line[k..], post);
  }

  lemma {:induction false} BehindLine(t: Str, ls: nat, line: Str, post: Str, stop: nat)
    requires Placed(t, ls, line, post) && stop == if post != [] && post[0] == CR then ls + |line| + 1 else ls + |line|
    ensures stop <= |t| && (stop < |t| ==> t[stop] == LF) && forall k :: ls + |line| <= k < stop ==> t[k] != LF
  {
    var x, n := t[ls..], |line|;
    assert |x| == n + |post|;
    if post != [] { assert t[ls + n] == x[n] == post[0]; }
    if |post| > 1 { assert t[ls + n + 1] == x[n + 1] == post[1]; }
  }

  // ----- the first opening pair is the written one ---------------------------------------------------------

  lemma {:induction false} NextPairIs(t: Str, from: nat, i: nat, stop: nat)
    requires from <= i && i + 2 <= stop <= |t| && PairStarts(t, i) && forall k :: from <= k < i ==> !PairStarts(t, k)
    ensures NextPair(t, from, stop) == Some(i)
  {
    var r := NextPair(t, from, stop);
    assert r.None? ==> !PairStarts(t, i);
  }

  lemma {:induction false} PrefixHasNoPair(t: Str, ls: nat, first: Str, notation: Str, post: Str, k: nat)
    requires Placed(t, ls, first[..PrefixLength(first)] + notation, post) && notation != [] && k < PrefixLength(first)
    ensures ls + k < |t| && !PairStarts(t, ls + k) && t[ls + k] != BACKTICK
  {
    var n := PrefixLength(first);
    var line := first[..n] + notation;
    PrefixPlain(first, k);
    UnitsOfLine(t, ls, line, post, k);
    if k + 1 < n { UnitsOfLine(t, ls, line, post, k + 1); }
  }

  lemma {:induction false} NoTicks(t: Str, a: nat, b: nat)
    requires a <= b <= |t| && forall k :: a <= k < b ==> t[k] != BACKTICK
    ensures Ticks(t, a, b) == 0
    decreases b
  {
    if a < b { NoTicks(t, a, b - 1); }
  }

  // ----- the finder ----------------------------------------------------------------------------------------

  /** With one candidate at i, and nothing to find behind it, the finder returns what stands at i or another task. */
  lemma {:induction false} FindsOnly(taskAt: Finder, t: Str, ls: nat, i: nat, stop: nat, caret: nat, task: Task,
        good: bool)
    requires stop <= |t| && NextPair(t, ls, stop) == Some(i)
    requires task.start == i && task.lineStart == ls && stop <= task.end + 1
    requires good ==> taskAt(i) == Some(Candidate(task, true))
    requires !good ==> taskAt(i).None? || taskAt(i).value.task != task
    ensures Pick(FoundFrom(taskAt, t, ls, stop), caret, caret, ls) == Some(task) <==> good
  {
    var found := FoundFrom(taskAt, t, ls, stop);
    if good {
      var c := Candidate(task, true);
      NothingBehind(taskAt, t, task.end, stop);
      assert found == [c];
      assert c in found;
    } else {
      forall c | c in found ensures c.task != task { FoundSound(taskAt, t, ls, stop, c); }
    }
  }

  lemma {:induction false} NothingBehind(taskAt: Finder, t: Str, from: nat, stop: nat)
    requires stop <= |t| && stop <= from + 1
    ensures FoundFrom(taskAt, t, from, stop) == []
  {
  }

  /** The inside of a written notation, as the finder cuts it out. */
  lemma {:induction false} InsideOf(t: Str, i: nat, p: Brackets, inner: Str, rest: Str)
    requires i <= |t| && t[i..] == Notation(p, inner) + rest
    ensures var n := |inner| + 5;
      i + n <= |t| && t[i..i + n] == Notation(p, inner) && Cut(t, i + 2, i + n - 2) == inner + [SPACE]
  {
    var x, n := t[i..], |inner| + 5;
    assert x[..n] == Notation(p, inner);
    assert forall k :: 2 <= k < n - 2 ==> t[i + k] == x[k];
    assert t[i + 2..i + n - 2] == x[2..n - 2];
    assert x[2..n - 2] == inner + [SPACE];
  }

  /** Everything the finder needs to know about the place of a written task. */
  datatype Site = Site(t: Str, ls: nat, i: nat, le: nat, kind: Kind, name: Str, body: Str, rest: Str) {
    function Notation(): Str { NotationOf(kind, name, body) }

    ghost predicate Valid() {
      && ls <= i < le <= |t| && LineStart(t, i) == ls && LineEnd(t, i) == le
      && t[i..] == Notation() + rest && le == i + |Notation()|
      && Plain(body) && (kind.Agent? ==> QuietName(name))
    }

    /** The task that should be found. */
    function Task(key: Option<Str>): Task
      requires ls <= i
    {
      var r := Meant(kind, name, key, body);
      Tasks.Task.Task(kind, i, le, ls, le, i - ls, kind.Brackets(), body, r.agent, r.mention, Notation())
    }
  }

  lemma {:induction false} SiteEnds(s: Site)
    requires s.Valid()
    ensures s.i < |s.t| && BracketsAt(s.t, s.i) == s.kind.Brackets()
    ensures NotationEnd(s.t, s.i) == Some(s.le) <==> Nests(s.kind.Brackets(), s.body)
    ensures Cut(s.t, s.i, s.le) == s.Notation()
    ensures Cut(s.t, s.i + 2, s.le - 2) == (Head(s.kind, s.name) + s.body) + [SPACE]
  {
    var p, inner := s.kind.Brackets(), Head(s.kind, s.name) + s.body;
    InsideOf(s.t, s.i, p, inner, s.rest);
    assert s.t[s.i] == p.Open() by {
      NotationUnits(p, inner, 0);
      assert s.t[s.i] == s.t[s.i..][0];
    }
    assert CloseOf(p, s.Notation(), 0, 0) == Some(|s.Notation()|) <==> Nests(p, s.body) by {
      WrittenEnds(s.kind, s.name, s.body, s.Notation());
    }
  }

  /** Nothing about its place keeps the notation from being a task, and it is alone on its line. */
  ghost predicate Clear(rd: Reader, s: Site) {
    && s.i <= |s.t| && !rd.ticked(s.i) && !InFence(s.t, rd.fences, s.i) && !rd.spoilt(s.i, s.le)
    && s.ls <= s.i && rd.prefix(s.ls, s.le) >= s.i - s.ls && rd.alone(s.i, s.i, s.le, s.le)
  }

  /** The candidate that ends where the line does. */
  lemma {:induction false} TaskToEnd(rd: Reader, t: Str, i: nat, ls: nat, le: nat, inside: Str, raw: Str)
    requires i < |t| && ls == LineStart(t, i) && le == LineEnd(t, i) && NotationEnd(t, i) == Some(le)
    requires Cut(t, i + 2, le - 2) == inside && Cut(t, i, le) == raw
    requires !rd.ticked(i) && !InFence(t, rd.fences, i) && !rd.spoilt(i, le)
    requires rd.prefix(ls, le) >= i - ls && rd.alone(i, i, le, le)
    ensures TaskAt(rd, t, i)
         == match rd.read(BracketsAt(t, i), inside)
            case None => None
            case Some(r) =>
              Some(Candidate(Task.Task(r.kind, i, le, ls, le, i - ls, BracketsAt(t, i), r.instruction, r.agent,
                r.mention, raw), true))
  {
  }

  /** A candidate that ends elsewhere, or nowhere. */
  lemma {:induction false} TaskElsewhere(rd: Reader, t: Str, i: nat, le: nat)
    requires i < |t| && NotationEnd(t, i) != Some(le)
    ensures TaskAt(rd, t, i).None? || TaskAt(rd, t, i).value.task.end != le
  {
  }

  /** The candidate at the place of a written task is the task meant exactly when it ends and reads as meant. */
  lemma {:induction false} SiteReads(rd: Reader, s: Site, key: Option<Str>, read: Option<Reading>, c: Option<Candidate>)
    requires s.Valid() && Clear(rd, s)
    requires read == rd.read(s.kind.Brackets(), (Head(s.kind, s.name) + s.body) + [SPACE])
    requires s.i < |s.t| && c == TaskAt(rd, s.t, s.i)
    ensures if Nests(s.kind.Brackets(), s.body) && read == Some(Meant(s.kind, s.name, key, s.body))
      then c == Some(Candidate(s.Task(key), true))
      else c.None? || c.value.task != s.Task(key)
  {
    var p := s.kind.Brackets();
    assert BracketsAt(s.t, s.i) == p && (NotationEnd(s.t, s.i) == Some(s.le) <==> Nests(p, s.body)) by { SiteEnds(s); }
    if Nests(p, s.body) {
      SiteCandidate(rd, s, read, c);
      if read.Some? { OtherReading(s, read.value, key); }
    } else {
      TaskElsewhere(rd, s.t, s.i, s.le);
    }
  }

  lemma {:induction false} SiteCandidate(rd: Reader, s: Site, read: Option<Reading>, c: Option<Candidate>)
    requires s.Valid() && Clear(rd, s) && Nests(s.kind.Brackets(), s.body)
    requires read == rd.read(s.kind.Brackets(), (Head(s.kind, s.name) + s.body) + [SPACE])
    requires s.i < |s.t| && c == TaskAt(rd, s.t, s.i)
    ensures c == if read.None? then None else Some(Candidate(SiteTask(s, read.value), true))
  {
    SiteEnds(s);
    TaskToEnd(rd, s.t, s.i, s.ls, s.le, (Head(s.kind, s.name) + s.body) + [SPACE], s.Notation());
  }

  /** The task a reading at a site makes; different readings make different tasks. */
  function SiteTask(s: Site, r: Reading): Task
    requires s.ls <= s.i
  {
    Task.Task(r.kind, s.i, s.le, s.ls, s.le, s.i - s.ls, s.kind.Brackets(), r.instruction, r.agent, r.mention,
      s.Notation())
  }

  lemma {:induction false} OtherReading(s: Site, r: Reading, key: Option<Str>)
    requires s.ls <= s.i
    ensures SiteTask(s, r) == s.Task(key) <==> r == Meant(s.kind, s.name, key, s.body)
  {
  }

  // ----- a decorated line ----------------------------------------------------------------------------------

  lemma {:induction false} NotationShape(kind: Kind, name: Str, body: Str)
    requires Plain(body) && forall k :: 0 <= k < |name| ==> NameUnit(name[k])
    ensures var x := NotationOf(kind, name, body);
      NoBreak(x) && StartsNotation(x) && |x| >= 5 && x[|x| - 1] == kind.Brackets().Close()
  {
    assert NoBreak(Head(kind, name));
    assert NoBreak(Head(kind, name) + body);
  }

  /** A prefix and a notation x on a line: the bounds of the line, and x behind the prefix. */
  lemma {:induction false} LineParts(t: Str, ls: nat, prefix: Str, x: Str, post: Str, i: nat, le: nat)
    requires Placed(t, ls, prefix + x, post) && x != [] && i == ls + |prefix| && le == i + |x|
    ensures le <= |t| && LineStart(t, i) == ls && LineEnd(t, i) == le && t[i..] == x + post &&
      Cut(t, ls, le) == prefix + x
  {
    LineOfIndex(t, ls, prefix + x, post, i);
    DropDrop(t, ls, |prefix|);
    assert ((prefix + x) + post)[|prefix|..] == x + post;
    assert t[ls..][..|prefix + x|] == prefix + x;
  }

  /** The first opening pair of the line is the notation's, and no backtick comes before it. */
  lemma {:induction false} FirstPair(t: Str, ls: nat, first: Str, x: Str, post: Str, i: nat, le: nat, stop: nat)
    requires Placed(t, ls, first[..PrefixLength(first)] + x, post) && StartsNotation(x)
    requires i == ls + PrefixLength(first) && le == i + |x| && le <= stop <= |t|
    ensures NextPair(t, ls, stop) == Some(i) && Ticks(t, ls, i) == 0
  {
    var n := PrefixLength(first);
    var line := first[..n] + x;
    UnitsOfLine(t, ls, line, post, n);
    UnitsOfLine(t, ls, line, post, n + 1);
    forall k | ls <= k < i
      ensures !PairStarts(t, k) && t[k] != BACKTICK
    {
      PrefixHasNoPair(t, ls, first, x, post, k - ls);
    }
    NextPairIs(t, ls, i, stop);
    NoTicks(t, ls, i);
  }

  /** The reader's answers, from what they stand for. */
  lemma {:induction false} ClearFrom(w: World, t: Str, s: Site)
    requires t == s.t && s.ls <= s.i <= |t| && LineStart(t, s.i) == s.ls && Ticks(t, s.ls, s.i) == 0
    requires !HasOpen(t) && !InFence(t, FencesOf(t), s.i)
    requires PrefixLength(Cut(t, s.ls, s.le)) == s.i - s.ls && Alone(t, s.i, s.i, s.le, s.le)
    ensures Clear(ReaderOf(w, t), s)
  {
    var rd := ReaderOf(w, t);
    assert !InInlineCode(t, s.ls, s.i);
    assert !rd.ticked(s.i);
    assert rd.fences == FencesOf(t);
    assert !rd.spoilt(s.i, s.le) by { assert !Commented(w, t); }
    assert rd.prefix(s.ls, s.le) == s.i - s.ls;
    assert rd.alone(s.i, s.i, s.le, s.le);
  }

  lemma {:induction false} NothingAround(t: Str, i: nat, le: nat)
    ensures Alone(t, i, i, le, le)
  {
    assert Cut(t, i, i) == [] && Cut(t, le, le) == [];
  }

  /** What the finder's questions answer for a written task outside fences in a note without comments. */
  lemma {:induction false} ClearSite(w: World, first: Str, x: Str, s: Site)
    requires s.Valid() && Placed(s.t, s.ls, first[..PrefixLength(first)] + x, s.rest) && StartsNotation(x)
    requires s.i == s.ls + PrefixLength(first) && s.le == s.i + |x|
    requires !HasOpen(s.t) && !InFence(s.t, FencesOf(s.t), s.ls)
    ensures Clear(ReaderOf(w, s.t), s)
  {
    FirstPair(s.t, s.ls, first, x, s.rest, s.i, s.le, s.le);
    LineParts(s.t, s.ls, first[..PrefixLength(first)], x, s.rest, s.i, s.le);
    PrefixStable(first, x, first[..PrefixLength(first)] + x);
    SameFence(s.t, FencesOf(s.t), s.ls, s.i);
    NothingAround(s.t, s.i, s.le);
    ClearFrom(w, s.t, s);
  }

  lemma {:induction false} SameFence(t: Str, fences: FenceAt, ls: nat, i: nat)
    requires ls <= i <= |t| && LineStart(t, i) == ls && IsLineStart(t, ls)
    ensures InFence(t, fences, i) == InFence(t, fences, ls)
  {
    LineStartIs(t, ls, ls);
  }

  /** The finder, on the site of a written task. */
  lemma {:induction false} FindsSite(rd: Reader, first: Str, x: Str, s: Site, key: Option<Str>, caret: nat)
    requires s.Valid() && Clear(rd, s) && Placed(s.t, s.ls, first[..PrefixLength(first)] + x, s.rest) &&
      StartsNotation(x)
    requires s.i == s.ls + PrefixLength(first) && s.le == s.i + |x| && s.ls <= caret <= s.le
    requires rd.read(s.kind.Brackets(), (Head(s.kind, s.name) + s.body) +
      [SPACE]) == Some(Meant(s.kind, s.name, key, s.body))
        <==> ColonFree(s.kind, s.body)
    ensures FindTask(rd, s.t, caret, caret) == Some(s.Task(key)) <==>
      Nests(s.kind.Brackets(), s.body) && ColonFree(s.kind, s.body)
  {
    var read := rd.read(s.kind.Brackets(), (Head(s.kind, s.name) + s.body) + [SPACE]);
    var good := Nests(s.kind.Brackets(), s.body) && ColonFree(s.kind, s.body);
    LineOfIndex(s.t, s.ls, first[..PrefixLength(first)] + x, s.rest, caret);
    var stop := RegionStop(s.t, caret, caret);
    FirstPair(s.t, s.ls, first, x, s.rest, s.i, s.le, stop);
    SiteReads(rd, s, key, read, TaskAt(rd, s.t, s.i));
    FindsOnly(TasksOf(rd, s.t), s.t, s.ls, s.i, stop, caret, s.Task(key), good);
  }

  lemma {:induction false} FindsDecorated(w: World, first: Str, prefix: Str, x: Str, s: Site, caret: nat)
    requires prefix == first[..PrefixLength(first)] && x == s.Notation() && Placed(s.t, s.ls, prefix + x, s.rest)
    requires s.i == s.ls + |prefix| && s.le == s.i + |x| && s.ls <= caret <= s.le <= |s.t|
    requires Plain(s.body) && s.name != [] && forall k :: 0 <= k < |s.name| ==> NameUnit(s.name[k])
    requires s.kind.Agent? ==> QuietName(s.name) && w.resolve(s.name).Some?
    requires !HasOpen(s.t) && !InFence(s.t, FencesOf(s.t), s.ls)
    ensures FindTask(ReaderOf(w, s.t), s.t, caret, caret) == Some(s.Task(w.resolve(s.name)))
       <==> Nests(s.kind.Brackets(), s.body) && ColonFree(s.kind, s.body)
  {
    NotationShape(s.kind, s.name, s.body);
    LineParts(s.t, s.ls, prefix, x, s.rest, s.i, s.le);
    ClearSite(w, first, x, s);
    var rd := ReaderOf(w, s.t);
    ReadsBack(s.kind, s.name, s.body, w.resolve);
    FindsSite(rd, first, x, s, w.resolve(s.name), caret);
  }

  /** The same for a line put between two parts of a note. */
  lemma {:induction false} FindsLine(w: World, first: Str, kind: Kind, name: Str, wr: Written, line: Str, pre: Str,
        post: Str, note: Str, caret: nat, makes: bool)
    returns (s: Site)
    requires NoBreak(first) && wr.prefix == first[..PrefixLength(first)] && Plain(wr.body)
    requires name != [] && (forall k :: 0 <= k < |name| ==> NameUnit(name[k])) &&
      line == wr.prefix + NotationOf(kind, name, wr.body)
    requires kind.Agent? ==> QuietName(name) && w.resolve(name).Some?
    requires (pre == [] || pre[|pre| - 1] == LF) && EndsLine(post) && note == pre + (line + post)
    requires !HasOpen(note) && !InFence(note, FencesOf(note), |pre|)
    requires makes == (Nests(kind.Brackets(), wr.body) && ColonFree(kind, wr.body))
    requires |pre| <= caret <= |pre| + |line|
    ensures s == Site(note, |pre|, |pre| + |wr.prefix|, |pre| + |line|, kind, name, wr.body, post) && caret <= |note|
    ensures FindTask(ReaderOf(w, note), note, caret, caret) == Some(s.Task(w.resolve(name))) <==> makes
  {
    var x := NotationOf(kind, name, wr.body);
    NotationShape(kind, name, wr.body);
    assert Placed(note, |pre|, wr.prefix + x, post) by { PlacedAt(pre, line, post, note); }
    s := Site(note, |pre|, |pre| + |wr.prefix|, |pre| + |line|, kind, name, wr.body, post);
    assert |note| == |pre| + (|line| + |post|);
    FindsDecorated(w, first, wr.prefix, x, s, caret);
  }

  /**
    What can be told from the text alone: its pairs of brackets nest - those that spacing out leaves, when they are
    not balanced - and an agent's instruction does not start with a colon.
   */
  predicate MakesTask(kind: Kind, said: Str) {
    var p := kind.Brackets();
    StepsNest(if Balanced(p, said, 0, 0) then Pairs(p, said, 0) else LeftPairs(p, said, 0)) && ColonFree(kind, said)
  }

  lemma {:induction false} WrittenMakesTask(kind: Kind, text: Str, o: Options, wr: Written)
    requires Decorate(kind, text, o) == Some(wr)
    ensures Nests(kind.Brackets(), wr.body) && ColonFree(kind, wr.body) <==> MakesTask(kind, Said(kind, text, o))
  {
    var p, said := kind.Brackets(), Said(kind, text, o);
    NestsByPairs(p, said);
    NeutralizeNests(p, said);
    SpaceOutHead(said, 0, p.Open());
    SpaceOutHead(SpaceOut(said, 0, p.Open()), 0, p.Close());
  }

  /**
    Task round trip: the line made of any text, put on a line of a note outside code fences, with no comment in
    the note and for an agent a known name without doubled braces, is found from every caret on it as the task
    it was made into, exactly when the pairs of brackets of the text - those left of them when they had to be
    spaced out - nest at most fifteen deep and, for an agent, the text does not start with a colon.
   */
  lemma {:induction false} TaskRoundTrip(w: World, o: Options, kind: Kind, text: Str, wr: Written, name: Str,
                                         pre: Str, post: Str, note: Str, caret: nat)
    returns (s: Site)
    requires Decorate(kind, text, o) == Some(wr) && name == AgentName(o.agent)
    requires kind.Agent? ==> QuietName(name) && w.resolve(name).Some?
    requires (pre == [] || pre[|pre| - 1] == LF) && EndsLine(post) && note == pre + (LineOf(kind, o, wr) + post)
    requires !HasOpen(note) && !InFence(note, FencesOf(note), |pre|)
    requires |pre| <= caret <= |pre| + |LineOf(kind, o, wr)|
    ensures s == Site(note, |pre|, |pre| + |wr.prefix|, |pre| + |LineOf(kind, o, wr)|, kind, name, wr.body, post)
    ensures caret <= |note|
    ensures FindTask(ReaderOf(w, note), note, caret, caret) == Some(s.Task(w.resolve(name)))
       <==> MakesTask(kind, Said(kind, text, o))
    ensures !o.sanitize ==> Balanced(kind.Brackets(), wr.body, 0, 0)
  {
    var makes := MakesTask(kind, Said(kind, text, o));
    assert makes == (Nests(kind.Brackets(), wr.body) && ColonFree(kind, wr.body)) by {
      WrittenMakesTask(kind, text, o, wr);
    }
    s := FindsWritten(w, o, kind, text, wr, name, pre, post, note, caret, makes);
  }

  /** The same, when it is known whether what is written nests. */
  lemma {:induction false} FindsWritten(w: World, o: Options, kind: Kind, text: Str, wr: Written, name: Str,
        pre: Str, post: Str, note: Str, caret: nat, makes: bool)
    returns (s: Site)
    requires Decorate(kind, text, o) == Some(wr) && name == AgentName(o.agent)
    requires kind.Agent? ==> QuietName(name) && w.resolve(name).Some?
    requires (pre == [] || pre[|pre| - 1] == LF) && EndsLine(post) && note == pre + (LineOf(kind, o, wr) + post)
    requires !HasOpen(note) && !InFence(note, FencesOf(note), |pre|)
    requires |pre| <= caret <= |pre| + |LineOf(kind, o, wr)|
    requires makes == (Nests(kind.Brackets(), wr.body) && ColonFree(kind, wr.body))
    ensures s == Site(note, |pre|, |pre| + |wr.prefix|, |pre| + |LineOf(kind, o, wr)|, kind, name, wr.body, post)
    ensures caret <= |note|
    ensures FindTask(ReaderOf(w, note), note, caret, caret) == Some(s.Task(w.resolve(name))) <==> makes
    ensures !o.sanitize ==> Balanced(kind.Brackets(), wr.body, 0, 0)
  {
    var first := WrittenParts(kind, text, o, wr);
    s := FindsLine(w, first, kind, name, wr, LineOf(kind, o, wr), pre, post, note, caret, makes);
  }
}
