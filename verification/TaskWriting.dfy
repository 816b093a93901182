/** Turning a line into a task: what is kept of it, what is put around it, and when it is refused. */
module TaskWriting {
  import opened Text
  import opened LinePrefix
  import opened Notations
  import opened DiskSync
  import opened Tasks

  /** The agent asked for, whether stray breaks and brackets are repaired, the agent list and lower-casing. */
  datatype Options = Options(agent: Str, sanitize: bool, resolve: Resolver, lower: Str -> Str)

  /** A decorated line before it is put together: the prefix it keeps and the instruction. */
  datatype Written = Written(prefix: Str, body: Str)

  predicate IsLf(c: CodeUnit) { c == LF }

  /** Line feeds off both ends. */
  function StripBreaks(s: Str): Str {
    var b, e := RunEnd(s, 0, IsLf), RunStart(s, |s|, IsLf);
    if b < e then s[b..e] else []
  }

  /** Every break, with the blanks before it and all white space after it, becomes one space. */
  function JoinLines(s: Str, i: nat): (r: Str)
    requires i <= |s|
    ensures NoBreak(r)
    decreases |s| - i
  {
    if i == |s| then []
    else
      var w := RunEnd(s, i, IsBlank);
      if w < |s| && s[w] == LF then [SPACE] + JoinLines(s, RunEnd(s, w + 1, IsSpace))
      else [s[i]] + JoinLines(s, i + 1)
  }

  /** Where the instruction starts when its line already says what kind of task it is. */
  function OwnMarker(kind: Kind, body: Str, o: Options): (n: nat)
    ensures n <= |body|
  {
    match kind
    case Llm => if AtLlm(body) then RunEnd(body, 4, IsBlank) else 0
    case Command => if AtDollar(body) && |body| > 1 then RunEnd(body, 1, IsBlank) else 0
    case Agent =>
      match MentionEnd(body)
      case None => 0
      case Some(e) =>
        if o.resolve(body[1..e]).Some? || o.lower(o.agent) == o.lower(body[1..e])
        then RunEnd(body, SkipColon(body, e), IsBlank)
        else 0
  }

  /** The instruction before its brackets are looked at: one line when the text may be repaired. */
  function Instruction(kind: Kind, s: Str, n: nat, o: Options): Str
    requires n <= |s|
  {
    var trimmed := Trim(s[n..]);
    var joined := if o.sanitize then JoinLines(trimmed, 0) else trimmed;
    Trim(joined[OwnMarker(kind, joined, o)..])
  }

  /** The instruction of a text before its brackets are looked at. */
  function Said(kind: Kind, text: Str, o: Options): Str {
    var s := StripBreaks(Lf(text));
    Instruction(kind, s, PrefixLength(s[..NextBreak(s, 0)]), o)
  }

  function Decorate(kind: Kind, text: Str, o: Options): Option<Written> {
    var s := StripBreaks(Lf(text));
    if LF in s && !o.sanitize then None
    else
      var first := s[..NextBreak(s, 0)];
      var n := PrefixLength(first);
      var body := Said(kind, text, o);
      if body == [] then None
      else if Balanced(kind.Brackets(), body, 0, 0) then Some(Written(first[..n], body))
      else if o.sanitize then Some(Written(first[..n], Neutralize(kind.Brackets(), body)))
      else None
  }

  function KeepNameUnits(s: Str): (r: Str)
    ensures forall k :: 0 <= k < |r| ==> NameUnit(r[k])
  {
    if s == [] then [] else (if NameUnit(s[0]) then [s[0]] else []) + KeepNameUnits(s[1..])
  }

  function AgentName(agent: Str): (name: Str)
    ensures name != [] && forall k :: 0 <= k < |name| ==> NameUnit(name[k])
  {
    if KeepNameUnits(agent) == [] then DEFAULT_AGENT else KeepNameUnits(agent)
  }

  /** What says the kind of a task, from the opening brackets to the instruction. */
  function Head(kind: Kind, name: Str): Str {
    match kind
    case Llm => [SPACE, AT, LOWER_L, LOWER_L, LOWER_M, SPACE]
    case Command => [SPACE, DOLLAR, SPACE]
    case Agent => [SPACE, AT] + (name + [SPACE])
  }

  function NotationOf(kind: Kind, name: Str, body: Str): Str {
    Notation(kind.Brackets(), Head(kind, name) + body)
  }

  /** The whole line. */
  function LineOf(kind: Kind, o: Options, w: Written): Str {
    w.prefix + NotationOf(kind, AgentName(o.agent), w.body)
  }

  // ----- what a written task looks like --------------------------------------------------------------------

  /** An instruction as it is written: not empty, on one line, nothing to trim. */
  ghost predicate Plain(body: Str) {
    body != [] && NoBreak(body) && !IsSpace(body[0]) && !IsSpace(body[|body| - 1])
  }

  lemma {:induction false} SpacedPlain(s: Str, c: CodeUnit)
    requires Plain(s)
    ensures Plain(SpaceOut(s, 0, c))
  {
    SpaceOutHead(s, 0, c);
    SpaceOutLast(s, 0, c);
    SpacedNoBreak(s, 0, c);
  }

  lemma {:induction false} SpacedNoBreak(s: Str, i: nat, c: CodeUnit)
    requires i <= |s| && NoBreak(s)
    ensures NoBreak(SpaceOut(s, i, c))
    decreases |s| - i
  {
    if i < |s| { SpacedNoBreak(s, if PairAt(s, i, c) then i + 2 else i + 1, c); }
  }

  lemma {:induction false} TrimPlain(s: Str)
    requires NoBreak(s) && Trim(s) != []
    ensures Plain(Trim(s))
  {
  }

  /** The prefix is the prefix of some single line; the instruction is plain; without repair it is balanced. */
  lemma {:induction false} WrittenParts(kind: Kind, text: Str, o: Options, w: Written) returns (first: Str)
    requires Decorate(kind, text, o) == Some(w)
    ensures NoBreak(first) && w.prefix == first[..PrefixLength(first)]
    ensures Plain(w.body)
    ensures !o.sanitize ==> Balanced(kind.Brackets(), w.body, 0, 0)
  {
    var s := StripBreaks(Lf(text));
    first := s[..NextBreak(s, 0)];
    var n := PrefixLength(first);
    var body := Instruction(kind, s, n, o);
    assert Plain(body) by { InstructionPlain(kind, s, n, o); }
    if !Balanced(kind.Brackets(), body, 0, 0) {
      SpacedPlain(body, kind.Brackets().Open());
      SpacedPlain(SpaceOut(body, 0, kind.Brackets().Open()), kind.Brackets().Close());
    }
  }

  lemma {:induction false} InstructionPlain(kind: Kind, s: Str, n: nat, o: Options)
    requires n <= |s| && (LF !in s || o.sanitize) && Instruction(kind, s, n, o) != []
    ensures Plain(Instruction(kind, s, n, o))
  {
    var trimmed := Trim(s[n..]);
    var joined := if o.sanitize then JoinLines(trimmed, 0) else trimmed;
    var m := OwnMarker(kind, joined, o);
    if !o.sanitize { assert NoBreak(s[n..]); }
    assert NoBreak(joined[m..]);
    TrimPlain(joined[m..]);
  }
}
