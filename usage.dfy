/** Usage aggregation: every `turn.completed` event adds one turn and its
    three token counters (a missing counter or `usage` counts as 0). */
module CodexUsage {
  import opened CodexEvents

  /** The four accumulators of the aggregation pass. */
  datatype Totals = Totals(input: int, output: int, cached: int, turns: int)

  function NoTotals(): Totals { Totals(0, 0, 0, 0) }

  function Plus(x: Totals, y: Totals): Totals
  {
    Totals(x.input + y.input, x.output + y.output, x.cached + y.cached, x.turns + y.turns)
  }

  lemma PlusZero(p: Totals)
    ensures Plus(p, NoTotals()) == p && Plus(NoTotals(), p) == p
  {
  }

  lemma PlusAssoc(p: Totals, q: Totals, r: Totals)
    ensures Plus(Plus(p, q), r) == Plus(p, Plus(q, r))
  {
  }

  lemma PlusSwap(p: Totals, q: Totals, r: Totals)
    ensures Plus(Plus(p, q), r) == Plus(Plus(p, r), q)
  {
  }

  /** What one event adds to the accumulators. */
  function Contribution(e: Event): Totals
  {
    if IsTurnCompleted(e) then
      var u := UsageOf(e);
      Totals(OrZero(u.inputTokens), OrZero(u.outputTokens), OrZero(u.cachedInputTokens), 1)
    else NoTotals()
  }

  /** The totals after the forward pass over the given events. */
  function Aggregate(es: seq<Event>): (t: Totals)
    ensures 0 <= t.turns <= |es|
  {
    if es == [] then NoTotals()
    else Plus(Aggregate(es[..|es| - 1]), Contribution(es[|es| - 1]))
  }

  /** The forward pass with its four running accumulators. */
  method AggregateUsage(events: seq<Event>)
    returns (totalInput: int, totalOutput: int, totalCached: int, numTurns: nat)
    ensures Totals(totalInput, totalOutput, totalCached, numTurns) == Aggregate(events)
  {
    totalInput, totalOutput, totalCached, numTurns := 0, 0, 0, 0;
    for i := 0 to |events|
      invariant Totals(totalInput, totalOutput, totalCached, numTurns) == Aggregate(events[..i])
    {
      assert events[..i + 1][..i] == events[..i];
      var e := events[i];
      assert Aggregate(events[..i + 1]) == Plus(Aggregate(events[..i]), Contribution(e));
      if IsTurnCompleted(e) {
        numTurns := numTurns + 1;
        var usage := UsageOf(e);
        totalInput := totalInput + OrZero(usage.inputTokens);
        totalOutput := totalOutput + OrZero(usage.outputTokens);
        totalCached := totalCached + OrZero(usage.cachedInputTokens);
      }
    }
    assert events[..|events|] == events;
  }

  /** A one-event stream adds exactly that event's contribution. */
  lemma AggregateSingle(x: Event)
    ensures Aggregate([x]) == Contribution(x)
  {
    assert [x][..0] == [];
    PlusZero(Contribution(x));
  }

  /** Totals over a concatenation are the sums of the parts' totals. */
  lemma {:induction false} AggregateAppend(a: seq<Event>, b: seq<Event>)
    ensures Aggregate(a + b) == Plus(Aggregate(a), Aggregate(b))
  {
    if b == [] {
      assert a + b == a;
      PlusZero(Aggregate(a));
    } else {
      var b', x := b[..|b| - 1], b[|b| - 1];
      assert (a + b)[..|a + b| - 1] == a + b';
      assert (a + b)[|a + b| - 1] == x;
      calc {
        Aggregate(a + b);
        Plus(Aggregate(a + b'), Contribution(x));
        { AggregateAppend(a, b'); }
        Plus(Plus(Aggregate(a), Aggregate(b')), Contribution(x));
        { PlusAssoc(Aggregate(a), Aggregate(b'), Contribution(x)); }
        Plus(Aggregate(a), Plus(Aggregate(b'), Contribution(x)));
        Plus(Aggregate(a), Aggregate(b));
      }
    }
  }

  /** Events other than `turn.completed` add nothing, wherever they are. */
  lemma AggregateIgnoresOtherEvents(a: seq<Event>, e: Event, b: seq<Event>)
    requires !IsTurnCompleted(e)
    ensures Aggregate(a + [e] + b) == Aggregate(a + b)
  {
    AggregateRemove(a, e, b);
    assert Contribution(e) == NoTotals();
    PlusZero(Aggregate(a + b));
  }

  /** Removing one event from the middle takes its contribution away. */
  lemma AggregateRemove(b1: seq<Event>, x: Event, b2: seq<Event>)
    ensures Aggregate(b1 + [x] + b2) == Plus(Aggregate(b1 + b2), Contribution(x))
  {
    AggregateSingle(x);
    calc {
      Aggregate(b1 + [x] + b2);
      { AggregateAppend(b1 + [x], b2); }
      Plus(Aggregate(b1 + [x]), Aggregate(b2));
      { AggregateAppend(b1, [x]); }
      Plus(Plus(Aggregate(b1), Contribution(x)), Aggregate(b2));
      { PlusSwap(Aggregate(b1), Contribution(x), Aggregate(b2)); }
      Plus(Plus(Aggregate(b1), Aggregate(b2)), Contribution(x));
      { AggregateAppend(b1, b2); }
      Plus(Aggregate(b1 + b2), Contribution(x));
    }
  }

  lemma MultisetCancel(a: seq<Event>, x: Event, b1: seq<Event>, b2: seq<Event>)
    requires multiset(a + [x]) == multiset(b1 + [x] + b2)
    ensures multiset(a) == multiset(b1 + b2)
  {
    calc {
      multiset(a) + multiset{x};
      multiset(a + [x]);
      multiset(b1 + [x] + b2);
      multiset(b1) + multiset{x} + multiset(b2);
      multiset(b1 + b2) + multiset{x};
    }
    assert multiset(a) == (multiset(a) + multiset{x}) - multiset{x};
    assert multiset(b1 + b2) == (multiset(b1 + b2) + multiset{x}) - multiset{x};
  }

  /** The totals do not depend on the order of the events. */
  lemma {:induction false} AggregatePermutation(a: seq<Event>, b: seq<Event>)
    requires multiset(a) == multiset(b)
    ensures Aggregate(a) == Aggregate(b)
    decreases |a|
  {
    if a == [] {
      assert |b| == |multiset(b)| == 0;
    } else {
      var x := a[|a| - 1];
      var a' := a[..|a| - 1];
      assert a == a' + [x];
      assert x in multiset(b);
      var k :| 0 <= k < |b| && b[k] == x;
      var b1, b2 := b[..k], b[k + 1..];
      assert b == b1 + [x] + b2;
      MultisetCancel(a', x, b1, b2);
      AggregatePermutation(a', b1 + b2);
      AggregateRemove(b1, x, b2);
    }
  }

  /** The indices of the `turn.completed` events. */
  function TurnIndices(es: seq<Event>): set<nat>
  {
    set i: nat | i < |es| && IsTurnCompleted(es[i])
  }

  /** The turn counter is the number of `turn.completed` events. */
  lemma {:induction false} TurnsCounted(es: seq<Event>)
    ensures Aggregate(es).turns == |TurnIndices(es)|
  {
    if es != [] {
      var n := |es| - 1;
      var init := es[..n];
      TurnsCounted(init);
      if IsTurnCompleted(es[n]) {
        assert TurnIndices(es) == TurnIndices(init) + {n};
      } else {
        assert TurnIndices(es) == TurnIndices(init);
      }
    }
  }
}
