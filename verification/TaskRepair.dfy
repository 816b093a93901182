/** Free text that is repaired into a task: exactly when that works, and a text for which it does not. */
module TaskRepair {
  import opened Text
  import opened Fences
  import opened LinePrefix
  import opened Notations
  import opened BracketRuns
  import opened Tasks
  import opened TaskWriting
  import opened TaskRoundTrip
  import opened DiskSync

  /**
    Repaired text can stand in a notation exactly when the pairs that its runs of brackets leave nest; so it
    always can when no bracket stands three times in a row.
   */
  lemma {:induction false} RepairedNests(kind: Kind, text: Str, o: Options, w: Written)
    requires Decorate(kind, text, o) == Some(w) && !Balanced(kind.Brackets(), Said(kind, text, o), 0, 0)
    ensures o.sanitize
    ensures Nests(kind.Brackets(), w.body) <==> StepsNest(LeftPairs(kind.Brackets(), Said(kind, text, o), 0))
    ensures var p, said := kind.Brackets(), Said(kind, text, o);
      !TripleFrom(said, 0, p.Open()) && !TripleFrom(said, 0, p.Close()) ==> Nests(p, w.body)
  {
    var p, said := kind.Brackets(), Said(kind, text, o);
    NeutralizeNests(p, said);
    if !TripleFrom(said, 0, p.Open()) && !TripleFrom(said, 0, p.Close()) { NeutralizedNests(p, said); }
  }

  // ----- a text that is repaired into no task --------------------------------------------------------------

  /** Three opening brackets. */
  const TRIPLE: Str := [0x5B, 0x5B, 0x5B]

  const TRIPLE_BODY: Str := [0x5B, SPACE, 0x5B, 0x5B]

  /** "[[ @llm [ [[ ]]" */
  const TRIPLE_LINE: Str :=
    [0x5B, 0x5B, SPACE, AT, LOWER_L, LOWER_L, LOWER_M, SPACE, 0x5B, SPACE, 0x5B, 0x5B, SPACE, 0x5D, 0x5D]

  /** Three brackets in a row are written with two of them left together, and no task is found in the line. */
  lemma {:induction false} RepairCanFail(w: World, o: Options, caret: nat)
    requires o.sanitize && caret <= |TRIPLE_LINE|
    ensures Decorate(Llm, TRIPLE, o) == Some(Written([], TRIPLE_BODY)) && !MakesTask(Llm, Said(Llm, TRIPLE, o))
    ensures LineOf(Llm, o, Written([], TRIPLE_BODY)) == TRIPLE_LINE
    ensures FindTask(ReaderOf(w, TRIPLE_LINE), TRIPLE_LINE, caret, caret) == None
  {
    TripleMakesNone(o);
    TripleLine(o);
    NothingInLine(w, TRIPLE_LINE, caret);
  }

  lemma {:induction false} TripleMakesNone(o: Options)
    requires o.sanitize
    ensures Decorate(Llm, TRIPLE, o) == Some(Written([], TRIPLE_BODY)) && !MakesTask(Llm, Said(Llm, TRIPLE, o))
  {
    TripleWritten(o);
    WrittenMakesTask(Llm, TRIPLE, o, Written([], TRIPLE_BODY));
  }

  lemma {:induction false} TripleLine(o: Options)
    ensures LineOf(Llm, o, Written([], TRIPLE_BODY)) == TRIPLE_LINE
  {
  }

  lemma {:induction false} TripleWritten(o: Options)
    requires o.sanitize
    ensures Decorate(Llm, TRIPLE, o) == Some(Written([], TRIPLE_BODY)) && !Nests(Square, TRIPLE_BODY)
  {
    LfTriple(TRIPLE);
    var first := TRIPLE[..NextBreak(TRIPLE, 0)];
    assert first == TRIPLE && StripBreaks(TRIPLE) == TRIPLE && PrefixLength(TRIPLE) == 0;
    SaidTriple(TRIPLE, o);
    NeutralizeCanFail(TRIPLE);
  }

  /** The outer notation never closes, and the inner one says no kind of task. */
  lemma {:induction false} NothingInLine(w: World, note: Str, caret: nat)
    requires note == TRIPLE_LINE && caret <= |note|
    ensures FindTask(ReaderOf(w, note), note, caret, caret) == None
  {
    var rd := ReaderOf(w, note);
    LineIsNote(note, caret);
    OuterNeverCloses(note);
    InnerSaysNothing(note, w.resolve);
    NextPairIs(note, 0, 0, 15);
    NextPairIs(note, 1, 10, 15);
    assert NextPair(note, 11, 15) == None;
    LineIsNote(note, 0);
    LineIsNote(note, 10);
    assert TasksOf(rd, note)(0) == None && TasksOf(rd, note)(10) == None;
    assert FoundFrom(TasksOf(rd, note), note, 11, 15) == [];
    assert FoundFrom(TasksOf(rd, note), note, 1, 15) == [];
    assert FoundFrom(TasksOf(rd, note), note, 0, 15) == [];
  }

  lemma {:induction false} LineIsNote(note: Str, i: nat)
    requires note == TRIPLE_LINE && i <= |note|
    ensures LineStart(note, i) == 0 && NextBreak(note, i) == 15 && LineEnd(note, i) == 15
  {
    LineStartIs(note, i, 0);
    BreakIs(note, i, 15);
  }

  lemma {:induction false} OuterNeverCloses(note: Str)
    requires note == TRIPLE_LINE
    ensures CloseOf(Square, note[0..15], 0, 0) == None
  {
    var line := note[0..15];
    assert line == note;
    assert CloseOf(Square, line, 12, 2) == None;
    assert CloseOf(Square, line, 10, 1) == None;
    assert CloseOf(Square, line, 8, 1) == None;
    assert CloseOf(Square, line, 6, 1) == None;
    assert CloseOf(Square, line, 4, 1) == None;
    assert CloseOf(Square, line, 2, 1) == None;
  }

  lemma {:induction false} InnerSaysNothing(note: Str, resolve: Resolver)
    requires note == TRIPLE_LINE
    ensures CloseOf(Square, note[10..15], 0, 0) == Some(5) && TaskFromInner(Square, Cut(note, 12, 13), resolve) == None
  {
    var line := note[10..15];
    assert line == [0x5B, 0x5B, SPACE, 0x5D, 0x5D];
    assert CloseOf(Square, line, 2, 1) == Some(5);
    assert Cut(note, 12, 13) == [SPACE];
  }

  lemma {:induction false} LfTriple(text: Str)
    requires text == [0x5B, 0x5B, 0x5B]
    ensures Lf(text) == text
  {
    assert Lf(text[2..]) == [0x5B];
    assert Lf(text[1..]) == [0x5B, 0x5B];
  }

  lemma {:induction false} SaidTriple(text: Str, o: Options)
    requires text == [0x5B, 0x5B, 0x5B] && o.sanitize
    ensures Instruction(Llm, text, 0, o) == text
  {
    assert Trim(text[0..]) == text by {
      TrimCore([], text, []);
      assert [] + text + [] == text;
      assert text[0..] == text;
    }
    JoinStep(text, 2);
    JoinStep(text, 1);
    JoinStep(text, 0);
    assert JoinLines(text, 0) == text && text[0..] == text;
  }

  lemma {:induction false} JoinStep(s: Str, i: nat)
    requires i < |s| && !IsBlank(s[i]) && s[i] != LF
    ensures JoinLines(s, i) == [s[i]] + JoinLines(s, i + 1)
  {
  }
}
