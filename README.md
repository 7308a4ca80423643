# Codex event-stream normaliser, modelled in Dafny

The agent harness runs a Codex-style coding-agent CLI. The CLI writes
one JSON event per line (`thread.started`, `turn.started`,
`item.completed`, `turn.completed`, `thread.completed`, ...). The
normaliser `normalize()` reads all of these lines and writes one
fixed-shape record, which is the same for every provider:

- `result`: the final answer text;
- `num_turns` and `usage`: token usage summed over all turns;
- `session_id`: the id of the thread;
- `duration_ms`;
- `total_cost_usd`, `duration_api_ms` and `modelUsage`, which are always null.

The model keeps the source's structure. Each pass of `normalize()` is an
imperative method with the source's loops and early exits, and each one
is proved equal to a pure specification function:

- `CodexDecode.DecodeLines`: the reading loop that builds the event list;
- `CodexResult.ExtractResult`: the reverse scan for result text, with the
  nested forward scan over content blocks;
- `CodexUsage.AggregateUsage`: the forward pass with four accumulators;
- `CodexSession.FindSession`: the first-wins session lookup.

`CodexNormalize.Normalize` runs the four passes in the source's order and
then calls `CodexNormalize.Assemble`. The lemmas state what the source
promises about the specification functions: last-wins and skip-if-empty,
text before content, sums that do not depend on order, first-wins
session ids, junk lines that change nothing, and null fields when no
turn was seen. `CodexScenarios` works concrete example streams through
`NormalizeSpec`.

Files:

- `events.dfy`: the data types. JSON decoding is abstract: a line is
  `Blank`, `Garbage` (fails to decode) or `Obj(event)`.
- `decode.dfy`, `result_text.dfy`, `usage.dfy`, `session.dfy`: one file per pass.
- `normalize.dfy`: output assembly and the whole normaliser.
- `scenarios.dfy`: the concrete streams.

The clock is read at agents/providers/codex-normalize.py:33, as soon as
input reading ends, so `duration_ms` covers reading only, not extraction
or aggregation. The model takes it as an input, and every other field is
independent of it.

## Model

| member | source | states |
|---|---|---|
| `CodexDecode.DecodeLines` | agents/providers/codex-normalize.py:22-31 | the reading loop returns exactly `Decoded(lines)`: the decoded objects in input order |
| `CodexDecode.Decoded` | agents/providers/codex-normalize.py:24-31 | filtering never yields more events than there are lines |
| `CodexDecode.DecodedAppend` | agents/providers/codex-normalize.py:24-31 | decoding distributes over concatenation of inputs |
| `CodexDecode.DecodedSkipsJunk` | agents/providers/codex-normalize.py:26-27 | a blank or undecodable line anywhere in the input changes nothing in the event list |
| `CodexDecode.DecodedKeepsObjects` | agents/providers/codex-normalize.py:28-29 | every decodable line gives one event, in the same order |
| `CodexDecode.DecodedNoObjects` | agents/providers/codex-normalize.py:24-31 | an input without a decodable line gives no events |
| `CodexDecode.DecodedMembership` | agents/providers/codex-normalize.py:24-31 | an event is in the list if and only if some line decoded to it |
| `CodexResult.FirstOutputText` | agents/providers/codex-normalize.py:46-49 | the inner scan gives "" exactly when no block is a usable `output_text`; otherwise it gives the text of the first usable block, and no earlier block is usable |
| `CodexResult.FirstOutputTextAt` | agents/providers/codex-normalize.py:46-49 | if block k is the first usable one, the inner scan returns its text |
| `CodexResult.ExtractResult` | agents/providers/codex-normalize.py:37-51 | the reverse scan, with its breaks and the nested content scan, returns `ResultOf(events)` |
| `CodexResult.ResultAppend` | agents/providers/codex-normalize.py:38-51 | over a concatenation, the later part decides whenever it yields text; otherwise the earlier part decides |
| `CodexResult.ResultEmptyIff` | agents/providers/codex-normalize.py:37-51 | the result is "" if and only if no `item.completed` event yields text (the empty input included) |
| `CodexResult.ResultLastWins` | agents/providers/codex-normalize.py:38-51 | the result is the text of the latest event that yields text; later events that yield nothing are skipped |
| `CodexResult.ResultIgnoresOtherEvents` | agents/providers/codex-normalize.py:38-39 | inserting an event whose type is not `item.completed` never changes the result |
| `CodexResult.TextPrecedence` | agents/providers/codex-normalize.py:41-44 | when the latest yielding item has non-empty `text`, that text is the result, whatever its content blocks hold |
| `CodexResult.ContentFallback` | agents/providers/codex-normalize.py:45-51 | when the latest yielding item has no usable `text`, the result is the first usable `output_text` block in forward order |
| `CodexUsage.Aggregate` | agents/providers/codex-normalize.py:57-60 | the turn count is between 0 and the number of events |
| `CodexUsage.AggregateUsage` | agents/providers/codex-normalize.py:54-64 | the four accumulators end equal to `Aggregate(events)` |
| `CodexUsage.AggregateAppend` | agents/providers/codex-normalize.py:58-64 | the totals of a concatenation are the sums of the parts' totals |
| `CodexUsage.AggregateIgnoresOtherEvents` | agents/providers/codex-normalize.py:58-59 | an event that is not `turn.completed` changes no total |
| `CodexUsage.AggregatePermutation` | agents/providers/codex-normalize.py:54-64 | any reordering of the events leaves every total and the turn count unchanged |
| `CodexUsage.TurnsCounted` | agents/providers/codex-normalize.py:57-60 | the turn count equals the number of `turn.completed` events |
| `CodexSession.FindSession` | agents/providers/codex-normalize.py:67-71 | the loop with its early break returns `SessionOf(events)` |
| `CodexSession.SessionFirstWins` | agents/providers/codex-normalize.py:67-71 | the session id is the `thread_id` of the earliest `thread.started` event, and null if that event has none, even when a later one has an id |
| `CodexSession.SessionAbsent` | agents/providers/codex-normalize.py:67-71 | with no `thread.started` event, the session id is null |
| `CodexSession.SessionAppend` | agents/providers/codex-normalize.py:68-71 | over a concatenation, the first part decides whenever it contains a `thread.started` event |
| `CodexNormalize.Assemble` | agents/providers/codex-normalize.py:73-89 | `num_turns` and `usage` are null if and only if there were zero turns; `usage` reports the totals, with cached tokens as cache reads and 0 creation tokens; cost, API duration and model usage are always null |
| `CodexNormalize.Normalize` | agents/providers/codex-normalize.py:20-89 | the whole normaliser returns `NormalizeSpec(lines, durationMs)` |
| `CodexNormalize.NormalizeNoEvents` | agents/providers/codex-normalize.py:37-89 | an input with no decodable line, the empty input among them, gives `result` "" and null `num_turns`, `session_id` and `usage` |
| `CodexNormalize.NormalizeSkipsJunk` | agents/providers/codex-normalize.py:24-31 | removing a blank or undecodable line leaves the whole record unchanged |
| `CodexNormalize.NormalizeSingleEvent` | agents/providers/codex-normalize.py:54-88 | a one-event stream reports one turn and that event's three counters as usage (a missing counter or `usage` read as 0, cached tokens as cache reads, 0 creation tokens) when it is `turn.completed`, and null `num_turns` and `usage` otherwise |
| `CodexNormalize.NormalizeDeterministic` | agents/providers/codex-normalize.py:33-89 | the duration reaches only `duration_ms`: every other field is the same whatever duration is supplied |
| `CodexNormalize.NormalizeResultText` | agents/providers/codex-normalize.py:37-51 | the record's `result` is "" if and only if no decoded event yields text |
| `CodexNormalize.NormalizeUsageOrderFree` | agents/providers/codex-normalize.py:54-64 | inputs whose decoded events are the same multiset give the same `num_turns` and `usage` |
| `CodexScenarios.PrecedenceScenario` | agents/providers/codex-normalize.py:41-44 | an item with `text` "A" and an `output_text` block "B" gives "A" |
| `CodexScenarios.FallbackScenario` | agents/providers/codex-normalize.py:46-49 | an item without `text` and with an `output_text` block "B" gives "B" |
| `CodexScenarios.SkipIfEmptyScenario` | agents/providers/codex-normalize.py:38-51 | "first", then garbage, then an empty item, then a blank line gives "first" |
| `CodexScenarios.UsageScenario` | agents/providers/codex-normalize.py:54-88 | turns (10, 5, 2) and (3, 1, 0) give 2 turns and usage (13, 6, 2, 0) |
| `CodexScenarios.SessionScenario` | agents/providers/codex-normalize.py:67-71 | `thread.started` "A" and then "B" give session "A" |
| `CodexScenarios.SessionFirstWithoutIdScenario` | agents/providers/codex-normalize.py:67-71 | a first `thread.started` without an id gives null, even though a later one has "B" |

## Left out

- JSON decoding, `str.strip()` and the reading of stdin are not modelled. Each line arrives already classified as `Blank`, `Garbage` or `Obj(event)`. The output is a datatype, not JSON text written by `json.dump`.
- The monotonic clock is not modelled. `duration_ms` is a natural-number input: the source derives it from floating-point seconds.
- A line that decodes to JSON but not to an object (such as `5` or `[1]`) is not modelled. The source raises an exception on such a line when it calls `.get`. The model's events are always objects, so the model does not claim the source is total over arbitrary JSON.
- Fields of an unexpected type are not modelled: a present-but-null `item` or `usage`, a non-integer counter, or a truthy `text` that is not a string. The source misbehaves or raises on these. Counters are `Option<int>`, texts are `Option<string>`, and a text is usable exactly when it is present and non-empty.
- Event fields that the normaliser never reads (item `id`, item type) are not part of the model. `modelUsage` is typed as an optional map only so that the field exists; it is always null.
- scripts/setup-kb-search.py is not part of this model. It is an operator provisioning script: HTTP calls to a search service, environment variables and process exit codes.
