/**
  How a task says its kind, as forms a text has or has not: "@llm", "$" or "@name" at the front, and what stands
  behind. What the readers and the writer make of a text is told from its form.
 */
module TaskForms {
  import opened Text
  import opened Notations
  import opened Tasks
  import opened TaskWriting

  predicate AllBlank(s: Str) {
    forall k :: 0 <= k < |s| ==> IsBlank(s[k])
  }

  /** The text ends, or goes on with a blank. */
  predicate BlankNext(s: Str) { s == [] || IsBlank(s[0]) }

  /** "@llm" in any case, and nothing or a blank behind it. */
  ghost predicate LlmForm(x: Str, rest: Str) {
    exists l1, l2, m :: l1 in {0x4C, 0x6C} && l2 in {0x4C, 0x6C} && m in {0x4D, 0x6D} &&
      x == [0x40, l1, l2, m] + rest && BlankNext(rest)
  }

  /** "$", and nothing or a blank behind it. */
  ghost predicate CommandForm(x: Str, rest: Str) {
    x == [0x24] + rest && BlankNext(rest)
  }

  /** "@name", blanks, and at most one colon; the name holds no white space and no colon. */
  ghost predicate AgentForm(x: Str, name: Str, gap: Str, colon: Str, rest: Str) {
    && x == [0x40] + (name + (gap + (colon + rest)))
    && name != [] && (forall k :: 0 <= k < |name| ==> !IsSpace(name[k]) && name[k] != 0x3A)
    && AllBlank(gap) && (colon == [0x3A] || (colon == [] && (rest == [] || (rest[0] != 0x3A && !IsBlank(rest[0])))))
    && (gap + (colon + rest) == [] || IsSpace((gap + (colon + rest))[0]) || (gap + (colon + rest))[0] == 0x3A)
  }

  // ----- the forms and the scanners ------------------------------------------------------------------------

  lemma {:induction false} LlmIs(x: Str)
    ensures AtLlm(x) ==> LlmForm(x, x[4..])
    ensures forall rest :: LlmForm(x, rest) ==> AtLlm(x) && rest == x[4..]
  {
    if AtLlm(x) { assert x == [0x40, x[1], x[2], x[3]] + x[4..]; }
    forall rest | LlmForm(x, rest) ensures AtLlm(x) && rest == x[4..] {
      var l1, l2, m :| l1 in {0x4C, 0x6C} && l2 in {0x4C, 0x6C} && m in {0x4D, 0x6D} &&
        x == [0x40, l1, l2, m] + rest && BlankNext(rest);
      assert rest != [] ==> x[4] == rest[0];
    }
  }

  lemma {:induction false} CommandIs(x: Str)
    ensures AtDollar(x) ==> CommandForm(x, x[1..])
    ensures forall rest :: CommandForm(x, rest) ==> AtDollar(x) && rest == x[1..]
  {
    if AtDollar(x) { assert x == [0x24] + x[1..]; }
    forall rest | CommandForm(x, rest) ensures AtDollar(x) && rest == x[1..] {
      assert rest != [] ==> x[1] == rest[0];
    }
  }

  lemma {:induction false} AgentHas(x: Str, e: nat)
    requires MentionEnd(x) == Some(e)
    ensures var c := RunEnd(x, e, IsBlank);
      AgentForm(x, x[1..e], x[e..c], x[c..SkipColon(x, e)], x[SkipColon(x, e)..])
  {
    var c, n := RunEnd(x, e, IsBlank), SkipColon(x, e);
    AgentCut(x, e, c, n);
  }

  lemma {:induction false} AgentCut(x: Str, e: nat, c: nat, n: nat)
    requires 1 <= e <= c <= n <= |x|
    ensures x[e..c] + (x[c..n] + x[n..]) == x[e..]
    ensures x == [x[0]] + (x[1..e] + (x[e..c] + (x[c..n] + x[n..])))
  {
    Halves(x, c, n);
    Halves(x, e, c);
    Halves(x, 1, e);
    assert x == [x[0]] + x[1..];
  }

  lemma {:induction false} Halves(x: Str, a: nat, b: nat)
    requires a <= b <= |x|
    ensures x[a..b] + x[b..] == x[a..]
  {
  }

  lemma {:induction false} AgentParts(x: Str, name: Str, gap: Str, colon: Str, rest: Str)
    requires AgentForm(x, name, gap, colon, rest)
    ensures var e := 1 + |name|;
      && MentionEnd(x) == Some(e) && x[1..e] == name && RunEnd(x, e, IsBlank) == e + |gap|
      && SkipColon(x, e) == e + |gap| + |colon| && x[SkipColon(x, e)..] == rest
  {
    var e, tail := 1 + |name|, gap + (colon + rest);
    assert forall k :: 1 <= k < e ==> x[k] == name[k - 1];
    assert x[e..] == tail && x[1..e] == name;
    assert tail != [] ==> x[e] == tail[0];
    RunEndIs(x, 1, e, NameUnit);
    assert forall k :: e <= k < e + |gap| ==> x[k] == gap[k - e];
    assert colon != [] ==> x[e + |gap|] == 0x3A;
    assert colon == [] && rest != [] ==> x[e + |gap|] == rest[0];
    RunEndIs(x, e, e + |gap|, IsBlank);
    assert x[e + |gap| + |colon|..] == rest;
  }

  // ----- the reader ----------------------------------------------------------------------------------------

  /** Blanks, and then something that does not start with one. */
  ghost predicate Led(inner: Str, lead: Str, x: Str) {
    inner == lead + x && AllBlank(lead) && (x == [] || !IsBlank(x[0]))
  }

  lemma {:induction false} LeadIs(inner: Str, lead: Str, x: Str)
    requires Led(inner, lead, x)
    ensures inner[RunEnd(inner, 0, IsBlank)..] == x
  {
    assert forall k :: 0 <= k < |lead| ==> inner[k] == lead[k];
    assert x != [] ==> inner[|lead|] == x[0];
    RunEndIs(inner, 0, |lead|, IsBlank);
  }

  /** Between square brackets: "@llm" and "$" say what they say, and nothing else is a task. */
  lemma {:induction false} SquareReads(inner: Str, lead: Str, x: Str, resolve: Resolver)
    requires Led(inner, lead, x)
    ensures var r := TaskFromInner(Square, inner, resolve);
      && (forall rest :: LlmForm(x, rest) ==> r == Some(Reading(Llm, Trim(rest), None, None)))
      && (forall rest :: CommandForm(x, rest) ==> r == Some(Reading(Command, Trim(rest), None, None)))
      && (r.Some? ==> exists rest :: LlmForm(x, rest) || CommandForm(x, rest))
  {
    LeadIs(inner, lead, x);
    LlmIs(x);
    CommandIs(x);
  }

  /** Between curly brackets: a known agent's name, with or without a colon, and nothing else. */
  lemma {:induction false} CurlyReads(inner: Str, lead: Str, x: Str, resolve: Resolver)
    requires Led(inner, lead, x)
    ensures var r := TaskFromInner(Curly, inner, resolve);
      && (forall name, gap, colon, rest :: AgentForm(x, name, gap, colon, rest) ==>
            r == if resolve(name).None? then None else Some(Reading(Agent, Trim(rest), resolve(name), Some(name))))
      && (r.Some? ==> exists name, gap, colon, rest :: AgentForm(x, name, gap, colon, rest))
  {
    var r := ReadAgent(x, resolve);
    assert TaskFromInner(Curly, inner, resolve) == r by { LeadIs(inner, lead, x); }
    forall name, gap, colon, rest | AgentForm(x, name, gap, colon, rest)
      ensures r == if resolve(name).None? then None else Some(Reading(Agent, Trim(rest), resolve(name), Some(name)))
    {
      AgentRead(x, resolve, name, gap, colon, rest);
    }
    if r.Some? { AgentNamed(x, resolve); }
  }

  lemma {:induction false} AgentRead(x: Str, resolve: Resolver, name: Str, gap: Str, colon: Str, rest: Str)
    requires AgentForm(x, name, gap, colon, rest)
    ensures ReadAgent(x, resolve)
      == if resolve(name).None? then None else Some(Reading(Agent, Trim(rest), resolve(name), Some(name)))
  {
    assert MentionEnd(x) == Some(1 + |name|) && x[1..1 + |name|] == name && x[SkipColon(x, 1 + |name|)..] == rest by {
      AgentParts(x, name, gap, colon, rest);
    }
    MentionRead(x, resolve, 1 + |name|, name, rest);
  }

  lemma {:induction false} MentionRead(x: Str, resolve: Resolver, e: nat, name: Str, rest: Str)
    requires MentionEnd(x) == Some(e) && x[1..e] == name && x[SkipColon(x, e)..] == rest
    ensures ReadAgent(x, resolve)
      == if resolve(name).None? then None else Some(Reading(Agent, Trim(rest), resolve(name), Some(name)))
  {
  }

  lemma {:induction false} AgentNamed(x: Str, resolve: Resolver)
    requires ReadAgent(x, resolve).Some?
    ensures exists name, gap, colon, rest :: AgentForm(x, name, gap, colon, rest)
  {
    AgentHas(x, MentionEnd(x).value);
  }

  // ----- the marker a line may already have ----------------------------------------------------------------

  /** The agent's name is one that resolves, or the one asked for. */
  predicate Known(o: Options, name: Str) {
    o.resolve(name).Some? || o.lower(o.agent) == o.lower(name)
  }

  /** The text starts with the marker of its own kind, and says `rest` behind it and its blanks. */
  ghost predicate OwnForm(kind: Kind, y: Str, o: Options, rest: Str) {
    (rest == [] || !IsBlank(rest[0])) &&
    match kind
    case Llm => exists gap :: AllBlank(gap) && LlmForm(y, gap + rest)
    case Command => exists gap :: gap != [] && AllBlank(gap) && CommandForm(y, gap + rest)
    case Agent => exists name, gap, colon, gap2 ::
      AllBlank(gap2) && AgentForm(y, name, gap, colon, gap2 + rest) && Known(o, name)
  }

  lemma {:induction false} BlanksIn(y: Str, n: nat, gap: Str, rest: Str)
    requires n <= |y| && y[n..] == gap + rest && AllBlank(gap) && (rest == [] || !IsBlank(rest[0]))
    ensures RunEnd(y, n, IsBlank) == n + |gap| && y[RunEnd(y, n, IsBlank)..] == rest
  {
    var tail := y[n..];
    assert forall k :: 0 <= k < |gap| ==> y[n + k] == tail[k] == gap[k];
    assert forall k :: n <= k < n + |gap| ==> y[k] == gap[k - n];
    assert rest != [] ==> y[n + |gap|] == tail[|gap|] == rest[0];
    RunEndIs(y, n, n + |gap|, IsBlank);
    assert tail[|gap|..] == rest && y[n + |gap|..] == tail[|gap|..];
  }

  lemma {:induction false} BlanksFrom(y: Str, n: nat) returns (gap: Str, rest: Str)
    requires n <= |y|
    ensures y[n..] == gap + rest && AllBlank(gap) && (rest == [] || !IsBlank(rest[0]))
    ensures rest == y[RunEnd(y, n, IsBlank)..] && (gap == [] <==> n == |y| || !IsBlank(y[n]))
  {
    var e := RunEnd(y, n, IsBlank);
    gap, rest := y[n..e], y[e..];
  }

  /** The writer takes off its own marker, and only that. */
  lemma {:induction false} MarkerIs(kind: Kind, y: Str, o: Options)
    ensures forall rest :: OwnForm(kind, y, o, rest) ==> y[OwnMarker(kind, y, o)..] == rest
    ensures OwnMarker(kind, y, o) > 0 ==> exists rest :: OwnForm(kind, y, o, rest)
  {
    match kind
    case Llm => LlmMarker(y, o);
    case Command => CommandMarker(y, o);
    case Agent => AgentMarker(y, o);
  }

  lemma {:induction false} LlmMarker(y: Str, o: Options)
    ensures forall rest :: OwnForm(Llm, y, o, rest) ==> y[OwnMarker(Llm, y, o)..] == rest
    ensures OwnMarker(Llm, y, o) > 0 ==> exists rest :: OwnForm(Llm, y, o, rest)
  {
    LlmIs(y);
    forall rest | OwnForm(Llm, y, o, rest) ensures y[OwnMarker(Llm, y, o)..] == rest {
      var gap :| AllBlank(gap) && LlmForm(y, gap + rest);
      BlanksIn(y, 4, gap, rest);
    }
    if AtLlm(y) {
      var gap, rest := BlanksFrom(y, 4);
      assert OwnForm(Llm, y, o, rest);
    }
  }

  lemma {:induction false} CommandMarker(y: Str, o: Options)
    ensures forall rest :: OwnForm(Command, y, o, rest) ==> y[OwnMarker(Command, y, o)..] == rest
    ensures OwnMarker(Command, y, o) > 0 ==> exists rest :: OwnForm(Command, y, o, rest)
  {
    CommandIs(y);
    forall rest | OwnForm(Command, y, o, rest) ensures y[OwnMarker(Command, y, o)..] == rest {
      var gap :| gap != [] && AllBlank(gap) && CommandForm(y, gap + rest);
      BlanksIn(y, 1, gap, rest);
    }
    if AtDollar(y) && |y| > 1 {
      var gap, rest := BlanksFrom(y, 1);
      assert OwnForm(Command, y, o, rest);
    }
  }

  lemma {:induction false} AgentMarker(y: Str, o: Options)
    ensures forall rest :: OwnForm(Agent, y, o, rest) ==> y[OwnMarker(Agent, y, o)..] == rest
    ensures OwnMarker(Agent, y, o) > 0 ==> exists rest :: OwnForm(Agent, y, o, rest)
  {
    forall rest | OwnForm(Agent, y, o, rest) ensures y[OwnMarker(Agent, y, o)..] == rest {
      var name, gap, colon, gap2 :| AllBlank(gap2) && AgentForm(y, name, gap, colon, gap2 + rest) && Known(o, name);
      AgentTaken(y, o, name, gap, colon, gap2, rest);
    }
    if OwnMarker(Agent, y, o) > 0 { AgentOwn(y, o); }
  }

  lemma {:induction false} AgentTaken(y: Str, o: Options, name: Str, gap: Str, colon: Str, gap2: Str, rest: Str)
    requires AllBlank(gap2) && AgentForm(y, name, gap, colon, gap2 + rest) && Known(o, name)
    requires rest == [] || !IsBlank(rest[0])
    ensures y[OwnMarker(Agent, y, o)..] == rest
  {
    AgentParts(y, name, gap, colon, gap2 + rest);
    BlanksIn(y, SkipColon(y, 1 + |name|), gap2, rest);
  }

  lemma {:induction false} AgentOwn(y: Str, o: Options)
    requires OwnMarker(Agent, y, o) > 0
    ensures exists rest :: OwnForm(Agent, y, o, rest)
  {
    var e := MentionEnd(y).value;
    var c, n := RunEnd(y, e, IsBlank), SkipColon(y, e);
    AgentHas(y, e);
    var gap2, rest := BlanksFrom(y, n);
    OwnAgent(y, o, y[1..e], y[e..c], y[c..n], gap2, rest);
  }

  lemma {:induction false} OwnAgent(y: Str, o: Options, name: Str, gap: Str, colon: Str, gap2: Str, rest: Str)
    requires AllBlank(gap2) && AgentForm(y, name, gap, colon, gap2 + rest) && Known(o, name)
    requires rest == [] || !IsBlank(rest[0])
    ensures OwnForm(Agent, y, o, rest)
  {
  }
}
