/**
  A decorated text and the task that is found in it: the line is what the notation says it is, and the task's
  instruction is the text the line was made from.
 */
module InstructionRoundTrip {
  import opened Text
  import opened Markers
  import opened Fences
  import opened LinePrefix
  import opened Notations
  import opened Tasks
  import opened TaskWriting
  import opened TaskRoundTrip
  import opened DecoratedText

  /** "[[ @llm ", "[[ $ " or "{{ @name " */
  function Opening(kind: Kind, name: Str): Str {
    match kind
    case Llm => [0x5B, 0x5B, 0x20, 0x40, 0x6C, 0x6C, 0x6D, 0x20]
    case Command => [0x5B, 0x5B, 0x20, 0x24, 0x20]
    case Agent => [0x7B, 0x7B, 0x20, 0x40] + (name + [0x20])
  }

  /** " ]]" or " }}" */
  function Ending(kind: Kind): Str {
    if kind.Agent? then [0x20, 0x7D, 0x7D] else [0x20, 0x5D, 0x5D]
  }

  /** The whole line. */
  function LineText(kind: Kind, name: Str, prefix: Str, body: Str): Str {
    prefix + (Opening(kind, name) + (body + Ending(kind)))
  }

  lemma {:induction false} LineIsText(kind: Kind, o: Options, w: Written)
    ensures LineOf(kind, o, w) == LineText(kind, AgentName(o.agent), w.prefix, w.body)
  {
    var name, p := AgentName(o.agent), kind.Brackets();
    var head := Head(kind, name);
    HeadIsOpening(kind, name);
    Associate(head, w.body, [SPACE] + p.Closing());
    Associate(p.Opening(), head, w.body + ([SPACE] + p.Closing()));
  }

  lemma {:induction false} HeadIsOpening(kind: Kind, name: Str)
    ensures kind.Brackets().Opening() + Head(kind, name) == Opening(kind, name)
    ensures [SPACE] + kind.Brackets().Closing() == Ending(kind)
  {
  }

  /** An agent is named by its letters without white space and colons; without any it is "claude-code". */
  lemma {:induction false} NameIs(agent: Str)
    ensures agent != [] && (forall k :: 0 <= k < |agent| ==> !IsSpace(agent[k]) && agent[k] != 0x3A) ==>
      AgentName(agent) == agent
    ensures (forall k :: 0 <= k < |agent| ==> IsSpace(agent[k]) || agent[k] == 0x3A) ==>
      AgentName(agent) == [0x63, 0x6C, 0x61, 0x75, 0x64, 0x65, 0x2D, 0x63, 0x6F, 0x64, 0x65]
  {
    KeptUnits(agent);
  }

  lemma {:induction false} KeptUnits(s: Str)
    ensures (forall k :: 0 <= k < |s| ==> NameUnit(s[k])) ==> KeepNameUnits(s) == s
    ensures (forall k :: 0 <= k < |s| ==> !NameUnit(s[k])) ==> KeepNameUnits(s) == []
  {
    if s != [] {
      KeptUnits(s[1..]);
      assert s == [s[0]] + s[1..];
    }
  }

  lemma {:induction false} KeptUnit(c: CodeUnit, x: Str)
    ensures KeepNameUnits([c] + x) == (if NameUnit(c) then [c] else []) + KeepNameUnits(x)
  {
    assert ([c] + x)[1..] == x;
  }

  /** The units of a name, whatever stands between them. */
  lemma {:induction false} KeptAppend(a: Str, b: Str)
    ensures KeepNameUnits(a + b) == KeepNameUnits(a) + KeepNameUnits(b)
  {
    if a == [] {
      assert a + b == b;
    } else {
      var c, x := a[0], a[1..];
      KeptAppend(x, b);
      assert a == [c] + x && a + b == [c] + (x + b);
      KeptUnit(c, x + b);
      KeptUnit(c, x);
    }
  }

  /** The task of a line that starts at ls. */
  function TaskOfLine(kind: Kind, name: Str, key: Option<Str>, ls: nat, prefix: Str, body: Str): Task {
    var i, le := ls + |prefix|, ls + |LineText(kind, name, prefix, body)|;
    Task.Task(kind, i, le, ls, le, |prefix|, if kind.Agent? then Curly else Square, body,
      if kind.Agent? then key else None, if kind.Agent? then Some(name) else None,
      Opening(kind, name) + (body + Ending(kind)))
  }

  /** What is written is found as that task exactly when it nests, and for an agent starts with no colon. */
  lemma {:induction false} WrittenFound(w: World, o: Options, kind: Kind, text: Str, wr: Written, name: Str,
        pre: Str, post: Str, note: Str, caret: nat)
    requires Decorate(kind, text, o) == Some(wr) && name == AgentName(o.agent)
    requires kind.Agent? ==> QuietName(name) && w.resolve(name).Some?
    requires pre == [] || pre[|pre| - 1] == LF
    requires EndsLine(post) && note == pre + (LineText(kind, name, wr.prefix, wr.body) + post)
    requires !HasOpen(note) && !InFence(note, FencesOf(note), |pre|)
    requires |pre| <= caret <= |pre| + |LineText(kind, name, wr.prefix, wr.body)|
    ensures caret <= |note|
    ensures FindTask(ReaderOf(w, note), note, caret, caret)
         == Some(TaskOfLine(kind, name, w.resolve(name), |pre|, wr.prefix, wr.body))
       <==> Nests(kind.Brackets(), wr.body) && ColonFree(kind, wr.body)
  {
    LineIsText(kind, o, wr);
    var makes := Nests(kind.Brackets(), wr.body) && ColonFree(kind, wr.body);
    var s := FindsWritten(w, o, kind, text, wr, name, pre, post, note, caret, makes);
    SiteIs(kind, o, name, w.resolve(name), note, pre, post, wr, s);
  }

  lemma {:induction false} SiteIs(kind: Kind, o: Options, name: Str, key: Option<Str>, note: Str, pre: Str, post: Str,
        wr: Written, s: Site)
    requires name == AgentName(o.agent)
    requires s == Site(note, |pre|, |pre| + |wr.prefix|, |pre| + |LineOf(kind, o, wr)|, kind, name, wr.body, post)
    ensures s.Task(key) == TaskOfLine(kind, name, key, |pre|, wr.prefix, wr.body)
  {
    LineIsText(kind, o, wr);
    LineIsText(kind, o, Written([], wr.body));
    assert [] + NotationOf(kind, name, wr.body) == NotationOf(kind, name, wr.body);
  }

  /**
    The round trip, told from the text: a line of text that says `body` is written as that, or spaced out when it is
    not balanced; and the task found from every caret on the line has it as its instruction, exactly when it nests
    and, for an agent, starts with no colon.
   */
  lemma {:induction false} SingleRoundTrip(w: World, o: Options, kind: Kind, text: Str, y: Str, said: Str, prefix: Str,
        body: Str, name: Str, pre: Str, post: Str, note: Str, caret: nat)
    requires Single(text) && prefix == text[..PrefixLength(text)] && y == Trim(text[|prefix|..])
    requires Instructs(kind, y, o, said) && said != []
    requires if Balanced(kind.Brackets(), said, 0, 0) then body == said
      else o.sanitize && body == Neutralize(kind.Brackets(), said)
    requires name == AgentName(o.agent) && (kind.Agent? ==> QuietName(name) && w.resolve(name).Some?)
    requires pre == [] || pre[|pre| - 1] == LF
    requires EndsLine(post) && note == pre + (LineText(kind, name, prefix, body) + post)
    requires !HasOpen(note) && !InFence(note, FencesOf(note), |pre|)
    requires |pre| <= caret <= |pre| + |LineText(kind, name, prefix, body)|
    ensures Decorate(kind, text, o) == Some(Written(prefix, body)) && caret <= |note|
    ensures FindTask(ReaderOf(w, note), note, caret, caret)
         == Some(TaskOfLine(kind, name, w.resolve(name), |pre|, prefix, body))
       <==> Nests(kind.Brackets(), body) && ColonFree(kind, body)
  {
    DecoratedSingle(kind, text, o, y, said);
    WrittenFound(w, o, kind, text, Written(prefix, body), name, pre, post, note, caret);
  }
}
