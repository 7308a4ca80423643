/** Concrete event streams and the records the normaliser gives for them. */
module CodexScenarios {
  import opened CodexEvents
  import opened CodexDecode
  import opened CodexResult
  import opened CodexUsage
  import opened CodexSession
  import opened CodexNormalize

  function ItemEvent(text: Option<string>, content: Option<seq<Block>>): Event
  {
    Event(Some(ItemCompleted), None, Some(Item(text, content)), None)
  }

  function TurnEvent(input: int, output: int, cached: int): Event
  {
    Event(Some(TurnCompleted), None, None, Some(Usage(Some(input), Some(output), Some(cached))))
  }

  function StartEvent(threadId: Option<string>): Event
  {
    Event(Some(ThreadStarted), threadId, None, None)
  }

  /** Both `text` "A" and an `output_text` block "B": the text wins. */
  lemma PrecedenceScenario(d: nat)
    ensures NormalizeSpec([Obj(ItemEvent(Some("A"), Some([Block(Some(OutputText), Some("B"))])))], d).result == "A"
  {
    var e := ItemEvent(Some("A"), Some([Block(Some(OutputText), Some("B"))]));
    assert [Obj(e)][..0] == [];
    assert Decoded([Obj(e)]) == [e];
    TextPrecedence([], e, []);
    assert [] + [e] + [] == [e];
  }

  /** No `text`, one `output_text` block "B": the block's text is taken. */
  lemma FallbackScenario(d: nat)
    ensures NormalizeSpec([Obj(ItemEvent(None, Some([Block(Some(OutputText), Some("B"))])))], d).result == "B"
  {
    var e := ItemEvent(None, Some([Block(Some(OutputText), Some("B"))]));
    assert [Obj(e)][..0] == [];
    assert Decoded([Obj(e)]) == [e];
    ContentFallback([], e, [], 0);
    assert [] + [e] + [] == [e];
  }

  /** A later item with empty text and no usable block is skipped, and
      garbage and blank lines change nothing. */
  lemma SkipIfEmptyScenario(d: nat)
    ensures NormalizeSpec([Obj(ItemEvent(Some("first"), None)), Garbage,
                           Obj(ItemEvent(Some(""), Some([]))), Blank], d).result == "first"
  {
    var e1, e2 := ItemEvent(Some("first"), None), ItemEvent(Some(""), Some([]));
    assert [Obj(e1), Garbage, Obj(e2), Blank] == [Obj(e1)] + [Garbage] + [Obj(e2), Blank];
    NormalizeSkipsJunk([Obj(e1)], Garbage, [Obj(e2), Blank], d);
    assert [Obj(e1)] + [Obj(e2), Blank] == [Obj(e1), Obj(e2)] + [Blank] + [];
    NormalizeSkipsJunk([Obj(e1), Obj(e2)], Blank, [], d);
    assert [Obj(e1), Obj(e2)] + [] == AsLines([e1, e2]);
    DecodedKeepsObjects([e1, e2]);
    assert !Yields(e2);
    ResultLastWins([e1, e2], 0);
  }

  /** Two turns (10, 5, 2) and (3, 1, 0) give usage (13, 6, 2, 0) and two turns. */
  lemma UsageScenario(d: nat)
    ensures var r := NormalizeSpec([Obj(TurnEvent(10, 5, 2)), Obj(TurnEvent(3, 1, 0))], d);
            r.numTurns == Some(2) && r.usage == Some(UsageReport(13, 6, 2, 0))
  {
    var t1, t2 := TurnEvent(10, 5, 2), TurnEvent(3, 1, 0);
    var lines := [Obj(t1), Obj(t2)];
    assert lines == AsLines([t1, t2]);
    DecodedKeepsObjects([t1, t2]);
    UsageOfTwoTurns(t1, t2);
    var t := Aggregate([t1, t2]);
    var r := NormalizeSpec(lines, d);
    assert r == Assemble(ResultOf([t1, t2]), d, t.input, t.output, t.cached, t.turns,
                         SessionOf([t1, t2]));
  }

  lemma UsageOfTwoTurns(t1: Event, t2: Event)
    requires t1 == TurnEvent(10, 5, 2) && t2 == TurnEvent(3, 1, 0)
    ensures Aggregate([t1, t2]) == Totals(13, 6, 2, 2)
  {
    AggregateSingle(t1);
    assert [t1, t2][..1] == [t1];
    assert Aggregate([t1, t2]) == Plus(Contribution(t1), Contribution(t2));
  }

  /** Two `thread.started` events "A" then "B": the session id is "A". */
  lemma SessionScenario(d: nat)
    ensures NormalizeSpec([Obj(StartEvent(Some("A"))), Obj(StartEvent(Some("B")))], d).sessionId
            == Some("A")
  {
    var s1, s2 := StartEvent(Some("A")), StartEvent(Some("B"));
    var lines := [Obj(s1), Obj(s2)];
    assert lines[..1] == [Obj(s1)] && lines[..1][..0] == [];
    assert Decoded(lines) == [s1, s2];
  }

  /** A first `thread.started` without `thread_id` gives null, even though a
      later one has an id. */
  lemma SessionFirstWithoutIdScenario(d: nat)
    ensures NormalizeSpec([Obj(StartEvent(None)), Obj(StartEvent(Some("B")))], d).sessionId == None
  {
    var s1, s2 := StartEvent(None), StartEvent(Some("B"));
    var lines := [Obj(s1), Obj(s2)];
    assert lines[..1] == [Obj(s1)] && lines[..1][..0] == [];
    assert Decoded(lines) == [s1, s2];
    SessionFirstWins([s1, s2], 0);
  }
}
