/** The whole normaliser: read the lines, run the three passes over the
    decoded events and assemble the fixed-shape output record. */
module CodexNormalize {
  import opened CodexEvents
  import opened CodexDecode
  import opened CodexResult
  import opened CodexUsage
  import opened CodexSession

  /** The `usage` object of the output contract. */
  datatype UsageReport = UsageReport(
    inputTokens: int,
    outputTokens: int,
    cacheReadInputTokens: int,
    cacheCreationInputTokens: int)

  /** The output record; a field this provider cannot fill is an `Option`
      that is always `None` (JSON null). */
  datatype NormalizedResult = NormalizedResult(
    result: string,
    totalCostUsd: Option<real>,
    durationMs: nat,
    durationApiMs: Option<nat>,
    numTurns: Option<nat>,
    sessionId: Option<string>,
    usage: Option<UsageReport>,
    modelUsage: Option<map<string, UsageReport>>)

  /** Output assembly from the passes' results: zero turns become null
      `num_turns` and null `usage`, cached input tokens are reported as
      cache reads, and no creation tokens are ever reported. */
  function Assemble(resultText: string, durationMs: nat, totalInput: int, totalOutput: int,
                    totalCached: int, numTurns: nat, sessionId: Option<string>): (r: NormalizedResult)
    ensures r.result == resultText && r.durationMs == durationMs && r.sessionId == sessionId
    ensures r.numTurns.None? <==> numTurns == 0
    ensures r.usage.None? <==> numTurns == 0
    ensures r.numTurns.Some? ==> r.numTurns.value == numTurns
    ensures r.usage.Some? ==>
              && r.usage.value.inputTokens == totalInput
              && r.usage.value.outputTokens == totalOutput
              && r.usage.value.cacheReadInputTokens == totalCached
              && r.usage.value.cacheCreationInputTokens == 0
    ensures r.totalCostUsd.None? && r.durationApiMs.None? && r.modelUsage.None?
  {
    NormalizedResult(
      result := resultText,
      totalCostUsd := None,
      durationMs := durationMs,
      durationApiMs := None,
      numTurns := if numTurns == 0 then None else Some(numTurns),
      sessionId := sessionId,
      usage := if numTurns > 0
               then Some(UsageReport(totalInput, totalOutput, totalCached, 0))
               else None,
      modelUsage := None)
  }

  /** The record the normaliser produces for the given lines; the elapsed
      time is supplied by the caller. */
  function NormalizeSpec(lines: seq<Line>, durationMs: nat): NormalizedResult
  {
    var es := Decoded(lines);
    var t := Aggregate(es);
    Assemble(ResultOf(es), durationMs, t.input, t.output, t.cached, t.turns, SessionOf(es))
  }

  /** The normaliser: decode, extract the result, aggregate usage, find the
      session and assemble the record, in the source's order. */
  method Normalize(lines: seq<Line>, durationMs: nat) returns (output: NormalizedResult)
    ensures output == NormalizeSpec(lines, durationMs)
  {
    var events := DecodeLines(lines);
    var resultText := ExtractResult(events);
    var totalInput, totalOutput, totalCached, numTurns := AggregateUsage(events);
    var sessionId := FindSession(events);
    output := Assemble(resultText, durationMs, totalInput, totalOutput, totalCached,
                       numTurns, sessionId);
  }

  /** An input with no decodable line (the empty input among them) gives
      the all-default record. */
  lemma NormalizeNoEvents(lines: seq<Line>, durationMs: nat)
    requires forall i :: 0 <= i < |lines| ==> !lines[i].Obj?
    ensures var r := NormalizeSpec(lines, durationMs);
            && r.result == "" && r.numTurns.None? && r.sessionId.None? && r.usage.None?
            && r.durationMs == durationMs
  {
    DecodedNoObjects(lines);
  }

  /** A blank or undecodable line anywhere leaves the record unchanged. */
  lemma NormalizeSkipsJunk(a: seq<Line>, l: Line, b: seq<Line>, durationMs: nat)
    requires !l.Obj?
    ensures NormalizeSpec(a + [l] + b, durationMs) == NormalizeSpec(a + b, durationMs)
  {
    DecodedSkipsJunk(a, l, b);
  }

  /** The supplied duration reaches only the `duration_ms` field. */
  lemma NormalizeDeterministic(lines: seq<Line>, d1: nat, d2: nat)
    ensures NormalizeSpec(lines, d1) == NormalizeSpec(lines, d2).(durationMs := d1)
  {
  }

  /** A one-event stream reports one turn and that event's counters when it
      is `turn.completed`, and null `num_turns` and `usage` otherwise. */
  lemma NormalizeSingleEvent(e: Event, durationMs: nat)
    ensures var r := NormalizeSpec(AsLines([e]), durationMs);
            && r.numTurns == (if IsTurnCompleted(e) then Some(1) else None)
            && r.usage == if IsTurnCompleted(e)
                          then Some(UsageReport(OrZero(UsageOf(e).inputTokens),
                                                OrZero(UsageOf(e).outputTokens),
                                                OrZero(UsageOf(e).cachedInputTokens), 0))
                          else None
  {
    DecodedKeepsObjects([e]);
    AggregateSingle(e);
  }

  /** The result is empty exactly when no decoded `item.completed` event
      yields text. */
  lemma NormalizeResultText(lines: seq<Line>, durationMs: nat)
    ensures NormalizeSpec(lines, durationMs).result == "" <==> NoneYields(Decoded(lines))
  {
    ResultEmptyIff(Decoded(lines));
  }

  /** Reordering the decoded lines leaves `num_turns` and `usage` unchanged. */
  lemma NormalizeUsageOrderFree(lines1: seq<Line>, lines2: seq<Line>, durationMs: nat)
    requires multiset(Decoded(lines1)) == multiset(Decoded(lines2))
    ensures NormalizeSpec(lines1, durationMs).numTurns == NormalizeSpec(lines2, durationMs).numTurns
    ensures NormalizeSpec(lines1, durationMs).usage == NormalizeSpec(lines2, durationMs).usage
  {
    AggregatePermutation(Decoded(lines1), Decoded(lines2));
  }
}
