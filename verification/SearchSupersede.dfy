/**
  The search panel: plain and semantic searches run in goroutines, a newer search of either mode cancels the one
  before it, and each goroutine passes a finishing lock before it answers. Every step between two of them may be
  another goroutine's.
 */
module SearchSupersede {
  import opened Text

  datatype Mode = Plain | Semantic

  /** What the panel's promise is settled with. */
  datatype Answer = Results | Failed | Superseded | BadFilter

  /**
    Where a request is. `late` is history: whether a newer search had already started when the request passed its
    finishing lock.
   */
  datatype Phase =
    | Running
    | Worked(ok: bool)
    | Passed(ok: bool, late: bool)
    | Decided(answer: Answer, late: bool)
    | Answered(answer: Answer, late: bool)

  /** A request with a bad filter is no search: it has no number and is answered off the call. */
  datatype Request =
    | Search(mode: Mode, number: nat, phase: Phase, cancelled: bool)
    | Bad(mode: Mode, phase: Phase)

  /** The two fields under searchMu; the cancel function is that of one request. */
  datatype Lock = Lock(searchSeq: nat, searchCancel: Option<nat>)

  function Begin(l: Lock, who: nat): Lock { Lock(l.searchSeq + 1, Some(who)) }

  function Finish(l: Lock, number: nat): Lock { if l.searchSeq == number then l.(searchCancel := None) else l }

  /** The fields and the two locked sections; `cancelled` is what their cancel functions have done. */
  class Searches {
    var searchSeq: nat
    var searchCancel: Option<nat>
    var cancelled: set<nat>

    function Fields(): Lock
      reads this
    {
      Lock(searchSeq, searchCancel)
    }

    constructor ()
      ensures Fields() == Lock(0, None) && cancelled == {}
    {
      searchSeq, searchCancel, cancelled := 0, None, {};
    }

    method BeginSearch(who: nat) returns (number: nat)
      modifies this
      ensures Fields() == Begin(old(Fields()), who) && number == searchSeq
      ensures cancelled == old(cancelled) + if old(searchCancel).Some? then {old(searchCancel).value} else {}
    {
      if searchCancel.Some? { cancelled := cancelled + {searchCancel.value}; }
      searchSeq := searchSeq + 1;
      number := searchSeq;
      searchCancel := Some(who);
    }

    method FinishSearch(number: nat)
      modifies this`searchCancel
      ensures Fields() == Finish(old(Fields()), number)
    {
      if searchSeq == number { searchCancel := None; }
    }
  }

  // ----- the steps -----------------------------------------------------------------------------------------

  /** The requests so far, numbered as they came, and the answers in the order they were sent. */
  datatype State = State(fields: Lock, requests: seq<Request>, log: seq<(nat, Answer)>)

  const START := State(Lock(0, None), [], [])

  datatype Action = Start(mode: Mode, valid: bool) | Work(r: nat,
        ok: bool) | Pass(r: nat) | Check(r: nat) | Send(r: nat)

  function Cancel(requests: seq<Request>, handle: Option<nat>): (out: seq<Request>)
    ensures |out| == |requests|
  {
    if handle.Some? && handle.value < |requests| && requests[handle.value].Search?
    then requests[handle.value := requests[handle.value].(cancelled := true)]
    else requests
  }

  function StartRequest(st: State, mode: Mode, valid: bool): State {
    if !valid then st.(requests := st.requests + [Bad(mode, Decided(BadFilter, false))])
    else
      var fields := Begin(st.fields, |st.requests|);
      State(fields, Cancel(st.requests, st.fields.searchCancel) + [Search(mode, fields.searchSeq, Running, false)],
        st.log)
  }

  /** One step of a goroutine, if it is the step it is at. */
  function StepRequest(st: State, a: Action, r: nat): Option<State>
    requires r < |st.requests|
  {
    var q := st.requests[r];
    match (a, q.phase)
    case (Work(_, ok), Running) => Some(st.(requests := st.requests[r := q.(phase := Worked(ok))]))
    case (Pass(_), Worked(ok)) =>
      if q.Bad? then None
      else Some(st.(fields := Finish(st.fields, q.number),
                    requests := st.requests[r := q.(phase := Passed(ok, q.number < st.fields.searchSeq))]))
    case (Check(_), Passed(ok, late)) =>
      if q.Bad? then None
      else
        var answer := if q.cancelled then Superseded else if ok then Results else Failed;
        Some(st.(requests := st.requests[r := q.(phase := Decided(answer, late))]))
    case (Send(_), Decided(answer, late)) =>
      var sent := q.(phase := Answered(answer, late));
      Some(st.(requests := st.requests[r := if sent.Search? then sent.(cancelled := true) else sent],
               log := st.log + [(r, answer)]))
    case _ => None
  }

  function Step(st: State, a: Action): Option<State> {
    match a
    case Start(mode, valid) => Some(StartRequest(st, mode, valid))
    case _ => if a.r < |st.requests| then StepRequest(st, a, a.r) else None
  }

  function Run(st: State, acts: seq<Action>): Option<State>
    decreases |acts|
  {
    if acts == [] then Some(st)
    else
      match Step(st, acts[0])
      case None => None
      case Some(next) => Run(next, acts[1..])
  }

  // ----- what every step keeps -----------------------------------------------------------------------------

  /** Before its finishing lock. */
  predicate Working(q: Request) {
    q.Search? && (q.phase.Running? || q.phase.Worked?)
  }

  /** A search is cancelled before its lock exactly when a newer one has started; after it, not any more. */
  ghost predicate SearchOk(fields: Lock, q: Request, i: nat)
    requires q.Search?
  {
    && 1 <= q.number <= fields.searchSeq
    && match q.phase
       case Running => OnlyNewest(fields, q, i)
       case Worked(_) => OnlyNewest(fields, q, i)
       case Passed(_, late) => q.cancelled == late && fields.searchCancel != Some(i) &&
         (late ==> q.number < fields.searchSeq)
       case Decided(answer, late) => (answer == Superseded <==> late) && fields.searchCancel != Some(i) &&
         answer != BadFilter
       case Answered(answer, late) =>
         (answer == Superseded <==> late) && fields.searchCancel != Some(i) && answer != BadFilter
  }

  ghost predicate OnlyNewest(fields: Lock, q: Request, i: nat)
    requires q.Search?
  {
    q.cancelled == (q.number < fields.searchSeq) && (fields.searchCancel == Some(i) <==> q.number == fields.searchSeq)
  }

  ghost predicate RequestOk(fields: Lock, q: Request, i: nat) {
    match q
    case Search(_, _, _, _) => SearchOk(fields, q, i)
    case Bad(_, phase) =>
      fields.searchCancel != Some(i) && (phase == Decided(BadFilter, false) || phase == Answered(BadFilter, false))
  }

  /** The cancel function is that of the newest search, and nil once that search is past its lock. */
  ghost predicate HandleOk(fields: Lock, requests: seq<Request>) {
    fields.searchCancel.Some? ==>
      && fields.searchCancel.value < |requests|
      && Working(requests[fields.searchCancel.value])
      && requests[fields.searchCancel.value].number == fields.searchSeq
  }

  ghost predicate NumbersOk(requests: seq<Request>) {
    forall i, j :: 0 <= i < j < |requests| && requests[i].Search? && requests[j].Search? ==>
      requests[i].number < requests[j].number
  }

  /** How often a request was answered. */
  function Answers(log: seq<(nat, Answer)>, r: nat): nat {
    if log == [] then 0 else Answers(log[..|log| - 1], r) + if log[|log| - 1].0 == r then 1 else 0
  }

  /** Once when it is answered, and not before. */
  ghost predicate LogOk(requests: seq<Request>, log: seq<(nat, Answer)>) {
    forall r: nat :: Answers(log, r) == if r < |requests| && requests[r].phase.Answered? then 1 else 0
  }

  /** What was sent is what the request was answered with. */
  ghost predicate LogTells(requests: seq<Request>, log: seq<(nat, Answer)>) {
    forall k :: 0 <= k < |log| ==>
      && log[k].0 < |requests| && requests[log[k].0].phase.Answered? && requests[log[k].0].phase.answer == log[k].1
  }

  ghost predicate Inv(st: State) {
    && (forall i :: 0 <= i < |st.requests| ==> RequestOk(st.fields, st.requests[i], i))
    && HandleOk(st.fields, st.requests) && NumbersOk(st.requests)
    && LogOk(st.requests, st.log) && LogTells(st.requests, st.log)
  }

  lemma {:induction false} StartKeeps(st: State, mode: Mode, valid: bool)
    requires Inv(st)
    ensures Inv(StartRequest(st, mode, valid))
  {
    var next := StartRequest(st, mode, valid);
    var n := |st.requests|;
    forall i | 0 <= i < n + 1 ensures RequestOk(next.fields, next.requests[i], i) {
      if i < n { assert RequestOk(st.fields, st.requests[i], i); }
    }
    forall r: nat ensures Answers(next.log, r) == if r < n + 1 && next.requests[r].phase.Answered? then 1 else 0 {
      assert Answers(st.log, r) == if r < n && st.requests[r].phase.Answered? then 1 else 0;
    }
  }

  lemma {:induction false} StepRequestKeeps(st: State, a: Action, r: nat)
    requires Inv(st) && r < |st.requests|
    ensures StepRequest(st, a, r).Some? ==> Inv(StepRequest(st, a, r).value)
  {
    var next := StepRequest(st, a, r);
    assert RequestOk(st.fields, st.requests[r], r);
    if next.Some? {
      var s := next.value;
      forall i | 0 <= i < |s.requests| ensures RequestOk(s.fields, s.requests[i], i) {
        assert RequestOk(st.fields, st.requests[i], i);
      }
      LogStep(st, a, r);
    }
  }

  lemma {:induction false} LogStep(st: State, a: Action, r: nat)
    requires LogOk(st.requests, st.log) && r < |st.requests| && StepRequest(st, a, r).Some?
    ensures LogOk(StepRequest(st, a, r).value.requests, StepRequest(st, a, r).value.log)
  {
    var s := StepRequest(st, a, r).value;
    forall k: nat ensures Answers(s.log, k) == if k < |s.requests| && s.requests[k].phase.Answered? then 1 else 0 {
      assert Answers(st.log, k) == if k < |st.requests| && st.requests[k].phase.Answered? then 1 else 0;
      if s.log != st.log { assert s.log[..|s.log| - 1] == st.log; }
    }
  }

  lemma {:induction false} RunKeeps(st: State, acts: seq<Action>)
    requires Inv(st)
    ensures Run(st, acts).Some? ==> Inv(Run(st, acts).value)
    decreases |acts|
  {
    if acts != [] && Step(st, acts[0]).Some? {
      match acts[0]
      case Start(mode, valid) =>
        StartKeeps(st, mode, valid);
        RunKeeps(StartRequest(st, mode, valid), acts[1..]);
      case _ =>
        StepRequestKeeps(st, acts[0], acts[0].r);
        RunKeeps(Step(st, acts[0]).value, acts[1..]);
    }
  }

  // ----- what follows for every interleaving ---------------------------------------------------------------

  /** At most one search that is not cancelled is before its lock, and the cancel function is its own. */
  lemma {:induction false} OneLiveSearch(acts: seq<Action>, i: nat, j: nat)
    requires Run(START, acts).Some?
    requires var st := Run(START, acts).value;
      i < |st.requests| && j < |st.requests| && Working(st.requests[i]) && Working(st.requests[j]) &&
      !st.requests[i].cancelled && !st.requests[j].cancelled
    ensures i == j && Run(START, acts).value.fields.searchCancel == Some(i)
    ensures Run(START, acts).value.requests[i].number == Run(START, acts).value.fields.searchSeq
  {
    RunKeeps(START, acts);
    var st := Run(START, acts).value;
    assert RequestOk(st.fields, st.requests[i], i) && RequestOk(st.fields, st.requests[j], j);
  }

  /** searchCancel is nil or that of the search numbered searchSeq. */
  lemma {:induction false} HandleIsNewest(acts: seq<Action>)
    requires Run(START, acts).Some?
    ensures var st := Run(START, acts).value;
      st.fields.searchCancel.Some? ==>
        && st.fields.searchCancel.value < |st.requests| && st.requests[st.fields.searchCancel.value].Search?
        && st.requests[st.fields.searchCancel.value].number == st.fields.searchSeq
  {
    RunKeeps(START, acts);
  }

  /** A search is answered "superseded" exactly when a newer one had started before it passed its lock. */
  lemma {:induction false} SupersededIffLate(acts: seq<Action>, i: nat)
    requires Run(START, acts).Some? && i < |Run(START, acts).value.requests|
    requires var q := Run(START, acts).value.requests[i]; q.Search? && q.phase.Answered?
    ensures var q := Run(START, acts).value.requests[i];
      (q.phase.answer == Superseded <==> q.phase.late) && (q.phase.answer == Results ==> !q.phase.late)
  {
    RunKeeps(START, acts);
    var st := Run(START, acts).value;
    assert RequestOk(st.fields, st.requests[i], i);
  }

  /** The step a request that is not answered is at; it can always be taken. */
  function NextStep(q: Request, r: nat, ok: bool): Action {
    match q.phase
    case Running => Work(r, ok)
    case Worked(_) => Pass(r)
    case Passed(_, _) => Check(r)
    case _ => Send(r)
  }

  /** How many steps a request still has to take. */
  function StepsLeft(q: Request): nat {
    match q.phase
    case Running => 4
    case Worked(_) => 3
    case Passed(_, _) => 2
    case Decided(_, _) => 1
    case Answered(_, _) => 0
  }

  /** Every request that is not answered can go on, gets one step nearer to its answer, and holds up no other. */
  lemma {:induction false} RequestGoesOn(acts: seq<Action>, r: nat, ok: bool)
    requires Run(START, acts).Some? && r < |Run(START, acts).value.requests|
    requires !Run(START, acts).value.requests[r].phase.Answered?
    ensures var st := Run(START, acts).value;
      var next := Step(st, NextStep(st.requests[r], r, ok));
      && next.Some? && |next.value.requests| == |st.requests|
      && StepsLeft(next.value.requests[r]) < StepsLeft(st.requests[r])
      && forall k :: 0 <= k < |st.requests| && k != r ==> next.value.requests[k] == st.requests[k]
  {
    RunKeeps(START, acts);
    var st := Run(START, acts).value;
    assert RequestOk(st.fields, st.requests[r], r);
  }

  /** Each request is answered at most once, and exactly once when it is done. */
  lemma {:induction false} AnsweredOnce(acts: seq<Action>, r: nat)
    requires Run(START, acts).Some? && r < |Run(START, acts).value.requests|
    ensures var st := Run(START, acts).value;
      Answers(st.log, r) == if st.requests[r].phase.Answered? then 1 else 0
  {
    RunKeeps(START, acts);
  }

  // ----- what is decided when a newer search starts --------------------------------------------------------

  /**
    The answer a request is bound to get, once that is settled: a search overtaken before its lock is superseded, and
    past the lock nothing holds it back any more. The newest search is still open.
   */
  function Fate(fields: Lock, q: Request): Option<Answer> {
    match q.phase
    case Passed(ok, late) => Some(if late then Superseded else if ok then Results else Failed)
    case Decided(answer, _) => Some(answer)
    case Answered(answer, _) => Some(answer)
    case _ => if q.Search? && q.number < fields.searchSeq then Some(Superseded) else None
  }

  ghost predicate Sealed(st: State, i: nat, answer: Answer) {
    i < |st.requests| && Fate(st.fields, st.requests[i]) == Some(answer)
  }

  lemma {:induction false} StepSeals(st: State, a: Action, i: nat, answer: Answer)
    requires Inv(st) && Sealed(st, i, answer) && Step(st, a).Some?
    ensures Inv(Step(st, a).value) && Sealed(Step(st, a).value, i, answer)
  {
    assert RequestOk(st.fields, st.requests[i], i);
    match a
    case Start(mode, valid) => StartKeeps(st, mode, valid);
    case _ => StepRequestKeeps(st, a, a.r);
  }

  /** Whatever happens next, a request whose answer is settled gets that answer and no other. */
  lemma {:induction false} RunSeals(st: State, acts: seq<Action>, i: nat, answer: Answer)
    requires Inv(st) && Sealed(st, i, answer) && Run(st, acts).Some?
    ensures Inv(Run(st, acts).value) && Sealed(Run(st, acts).value, i, answer)
    decreases |acts|
  {
    if acts != [] {
      StepSeals(st, acts[0], i, answer);
      RunSeals(Step(st, acts[0]).value, acts[1..], i, answer);
    }
  }

  /** In every continuation everything sent for a request whose answer is settled is that answer. */
  lemma {:induction false} OnlyFate(st: State, acts: seq<Action>, i: nat, answer: Answer)
    requires Inv(st) && Sealed(st, i, answer) && Run(st, acts).Some?
    ensures var log := Run(st, acts).value.log;
      forall k :: 0 <= k < |log| && log[k].0 == i ==> log[k].1 == answer
  {
    RunSeals(st, acts, i, answer);
  }

  /** A search still before its lock when a newer one starts is superseded in every continuation. */
  lemma {:induction false} OvertakenIsSuperseded(before: seq<Action>, i: nat, mode: Mode, more: seq<Action>)
    requires Run(START, before).Some? && i < |Run(START, before).value.requests|
    requires Working(Run(START, before).value.requests[i])
    requires Run(StartRequest(Run(START, before).value, mode, true), more).Some?
    ensures var log := Run(StartRequest(Run(START, before).value, mode, true), more).value.log;
      forall k :: 0 <= k < |log| && log[k].0 == i ==> log[k].1 == Superseded
  {
    RunKeeps(START, before);
    var st := Run(START, before).value;
    assert RequestOk(st.fields, st.requests[i], i);
    StartKeeps(st, mode, true);
    OnlyFate(StartRequest(st, mode, true), more, i, Superseded);
  }

  // ----- when an older search has the last word ------------------------------------------------------------

  /** Past the lock before any newer search started, with results to send. */
  predicate PassedInTime(q: Request) {
    q.phase == Passed(true, false) || q.phase == Decided(Results, false)
  }

  /** Results of j were sent, and results of i after them. */
  ghost predicate SentBefore(log: seq<(nat, Answer)>, j: nat, i: nat) {
    exists m, n :: 0 <= m < n < |log| && log[m] == (j, Results) && log[n] == (i, Results)
  }

  ghost predicate CanSendLast(st: State, j: nat, i: nat) {
    exists more :: Run(st, more).Some? && SentBefore(Run(st, more).value.log, j, i)
  }

  /**
    In every reachable state: when a newer search starts, an older one that is not answered can still send its
    results after the newer one sent its own if and only if it is past its lock with results to send. Then nothing
    of what the source promises about stale output holds it back.
   */
  lemma {:induction false} OlderSendsLastIff(before: seq<Action>, i: nat, mode: Mode)
    requires Run(START, before).Some? && i < |Run(START, before).value.requests|
    requires Run(START, before).value.requests[i].Search? && !Run(START, before).value.requests[i].phase.Answered?
    ensures var st := Run(START, before).value;
      CanSendLast(StartRequest(st, mode, true), |st.requests|, i) <==> PassedInTime(st.requests[i])
  {
    RunKeeps(START, before);
    var st := Run(START, before).value;
    assert RequestOk(st.fields, st.requests[i], i);
    StartKeeps(st, mode, true);
    var next := StartRequest(st, mode, true);
    if PassedInTime(st.requests[i]) {
      SendsLast(next, mode, |st.requests|, i);
    } else {
      NeverSends(next, |st.requests|, i, Fate(next.fields, next.requests[i]).value);
    }
  }

  /** A request that is bound to another answer never sends results. */
  lemma {:induction false} NeverSends(st: State, j: nat, i: nat, answer: Answer)
    requires Inv(st) && Sealed(st, i, answer) && answer != Results
    ensures !CanSendLast(st, j, i)
  {
    forall more | Run(st, more).Some?
      ensures !SentBefore(Run(st, more).value.log, j, i)
    {
      OnlyFate(st, more, i, answer);
    }
  }

  /** The newest search goes all the way, and then the older one sends what it has. */
  lemma {:induction false} SendsLast(st: State, mode: Mode, j: nat, i: nat)
    requires Inv(st) && i < j < |st.requests| && st.requests[j] == Search(mode, st.fields.searchSeq, Running, false)
    requires st.requests[i].Search? && PassedInTime(st.requests[i])
    ensures CanSendLast(st, j, i)
  {
    assert RequestOk(st.fields, st.requests[i], i);
    var last := if st.requests[i].phase.Passed? then [Check(i), Send(i)] else [Send(i)];
    var mid := AfterNewest(st, mode, j);
    NewestAnswers(st, mode, j, last);
    OlderAnswers(mid, i, last);
    var more := [Work(j, true), Pass(j), Check(j), Send(j)] + last;
    var log := Run(st, more).value.log;
    assert log == (st.log + [(j, Results)]) + [(i, Results)];
    assert log[|st.log|] == (j, Results) && log[|st.log| + 1] == (i, Results);
    assert SentBefore(log, j, i);
  }

  /** What the newest search leaves when it has gone all the way. */
  function AfterNewest(st: State, mode: Mode, j: nat): State
    requires j < |st.requests|
  {
    State(Finish(st.fields, st.fields.searchSeq),
          st.requests[j := Search(mode, st.fields.searchSeq, Answered(Results, false), true)], st.log + [(j, Results)])
  }

  lemma {:induction false} RunOne(st: State, a: Action, rest: seq<Action>)
    requires Step(st, a).Some?
    ensures Run(st, [a] + rest) == Run(Step(st, a).value, rest)
  {
    assert ([a] + rest)[1..] == rest;
  }

  lemma {:induction false} NewestAnswers(st: State, mode: Mode, j: nat, rest: seq<Action>)
    requires j < |st.requests| && st.requests[j] == Search(mode, st.fields.searchSeq, Running, false)
    ensures Run(st, [Work(j, true), Pass(j), Check(j), Send(j)] + rest) == Run(AfterNewest(st, mode, j), rest)
  {
    var seqNo, finished := st.fields.searchSeq, Finish(st.fields, st.fields.searchSeq);
    var s1 := st.(requests := st.requests[j := Search(mode, seqNo, Worked(true), false)]);
    var s2 := State(finished, st.requests[j := Search(mode, seqNo, Passed(true, false), false)], st.log);
    var s3 := State(finished, st.requests[j := Search(mode, seqNo, Decided(Results, false), false)], st.log);
    assert [Work(j, true), Pass(j), Check(j), Send(j)] + rest
        == [Work(j, true)] + ([Pass(j)] + ([Check(j)] + ([Send(j)] + rest)));
    assert Step(st, Work(j, true)).value == s1 && Step(s1, Pass(j)).value == s2;
    assert Step(s2, Check(j)).value == s3 && Step(s3, Send(j)).value == AfterNewest(st, mode, j);
    RunOne(st, Work(j, true), [Pass(j)] + ([Check(j)] + ([Send(j)] + rest)));
    RunOne(s1, Pass(j), [Check(j)] + ([Send(j)] + rest));
    RunOne(s2, Check(j), [Send(j)] + rest);
    RunOne(s3, Send(j), rest);
  }

  lemma {:induction false} OlderAnswers(st: State, i: nat, last: seq<Action>)
    requires i < |st.requests| && st.requests[i].Search?
    requires st.requests[i].phase.Passed? ==> !st.requests[i].cancelled
    requires PassedInTime(st.requests[i])
    requires last == if st.requests[i].phase.Passed? then [Check(i), Send(i)] else [Send(i)]
    ensures Run(st, last).Some? && Run(st, last).value.log == st.log + [(i, Results)]
  {
    if st.requests[i].phase.Passed? {
      var decided := st.(requests := st.requests[i := st.requests[i].(phase := Decided(Results, false))]);
      assert last == [Check(i)] + [Send(i)] && [Send(i)] == [Send(i)] + [];
      assert Step(st, Check(i)).value == decided;
      RunOne(st, Check(i), [Send(i)]);
      RunOne(decided, Send(i), []);
    } else {
      assert last == [Send(i)] + [];
      RunOne(st, Send(i), []);
    }
  }

  /** A run in which it happens. */
  lemma {:induction false} OlderMaySendLast(acts: seq<Action>)
    requires acts == [Start(Plain, true), Work(0, true), Pass(0), Check(0),
                      Start(Semantic, true), Work(1, true), Pass(1), Check(1), Send(1), Send(0)]
    ensures Run(START, acts).Some? && Run(START, acts).value.log == [(1, Results), (0, Results)]
  {
    var a := Search(Plain, 1, Decided(Results, false), false);
    var started := State(Lock(2, Some(1)), [a, Search(Semantic, 2, Running, false)], []);
    var newest := [Work(1, true), Pass(1), Check(1), Send(1)] + [Send(0)];
    assert acts == [Start(Plain, true), Work(0, true), Pass(0), Check(0)] + ([Start(Semantic, true)] + newest);
    FirstDecides([Start(Semantic, true)] + newest);
    RunOne(State(Lock(1, None), [a], []), Start(Semantic, true), newest);
    assert StartRequest(State(Lock(1, None), [a], []), Semantic, true) == started;
    NewestAnswers(started, Semantic, 1, [Send(0)]);
    OlderAnswers(AfterNewest(started, Semantic, 1), 0, [Send(0)]);
  }

  lemma {:induction false} FirstDecides(rest: seq<Action>)
    ensures Run(START, [Start(Plain, true), Work(0, true), Pass(0), Check(0)] + rest)
         == Run(State(Lock(1, None), [Search(Plain, 1, Decided(Results, false), false)], []), rest)
  {
    var s1 := State(Lock(1, Some(0)), [Search(Plain, 1, Running, false)], []);
    var s2 := State(Lock(1, Some(0)), [Search(Plain, 1, Worked(true), false)], []);
    var s3 := State(Lock(1, None), [Search(Plain, 1, Passed(true, false), false)], []);
    assert [Start(Plain, true), Work(0, true), Pass(0), Check(0)] + rest
        == [Start(Plain, true)] + ([Work(0, true)] + ([Pass(0)] + ([Check(0)] + rest)));
    RunOne(START, Start(Plain, true), [Work(0, true)] + ([Pass(0)] + ([Check(0)] + rest)));
    assert StartRequest(START, Plain, true) == s1;
    RunOne(s1, Work(0, true), [Pass(0)] + ([Check(0)] + rest));
    assert Step(s1, Work(0, true)).value == s2;
    RunOne(s2, Pass(0), [Check(0)] + rest);
    assert Step(s2, Pass(0)).value == s3;
    RunOne(s3, Check(0), rest);
    assert Step(s3, Check(0)).value == State(Lock(1, None), [Search(Plain, 1, Decided(Results, false), false)], []);
  }
}
