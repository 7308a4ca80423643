/** Line filtering: the event list is the decoded objects among the input
    lines, in input order; blank and undecodable lines are dropped. */
module CodexDecode {
  import opened CodexEvents

  /** The events the source's reading loop appends, for the given lines. */
  function Decoded(lines: seq<Line>): (es: seq<Event>)
    ensures |es| <= |lines|
  {
    if lines == [] then []
    else
      var last := lines[|lines| - 1];
      Decoded(lines[..|lines| - 1]) + (if last.Obj? then [last.event] else [])
  }

  /** The input a stream of only decodable lines would give. */
  function AsLines(es: seq<Event>): (lines: seq<Line>)
    ensures |lines| == |es|
    ensures forall i :: 0 <= i < |es| ==> lines[i] == Obj(es[i])
  {
    seq(|es|, i requires 0 <= i < |es| => Obj(es[i]))
  }

  /** The reading loop: skip blank lines, skip lines that fail to decode,
      append everything else. */
  method DecodeLines(lines: seq<Line>) returns (events: seq<Event>)
    ensures events == Decoded(lines)
  {
    events := [];
    var i := 0;
    while i < |lines|
      invariant 0 <= i <= |lines|
      invariant events == Decoded(lines[..i])
    {
      assert lines[..i + 1][..i] == lines[..i];
      var line := lines[i];
      i := i + 1;
      if line.Blank? {
        continue;
      }
      match line
      case Garbage =>
      case Obj(e) =>
        events := events + [e];
    }
    assert lines[..i] == lines;
  }

  /** Filtering distributes over concatenation of inputs. */
  lemma {:induction false} DecodedAppend(a: seq<Line>, b: seq<Line>)
    ensures Decoded(a + b) == Decoded(a) + Decoded(b)
  {
    if b == [] {
      assert a + b == a;
    } else {
      var b' := b[..|b| - 1];
      assert (a + b)[..|a + b| - 1] == a + b';
      DecodedAppend(a, b');
    }
  }

  /** A line that is blank or undecodable contributes nothing, wherever it is. */
  lemma DecodedSkipsJunk(a: seq<Line>, l: Line, b: seq<Line>)
    requires !l.Obj?
    ensures Decoded(a + [l] + b) == Decoded(a + b)
  {
    DecodedAppend(a + [l], b);
    DecodedAppend(a, [l]);
    DecodedAppend(a, b);
    assert Decoded([l]) == [] by {
      assert [l][..0] == [];
    }
  }

  /** Decodable lines are kept one for one, in order. */
  lemma {:induction false} DecodedKeepsObjects(es: seq<Event>)
    ensures Decoded(AsLines(es)) == es
  {
    if es != [] {
      var es' := es[..|es| - 1];
      assert AsLines(es)[..|es| - 1] == AsLines(es');
      DecodedKeepsObjects(es');
    }
  }

  /** Input without a decodable line yields no events. */
  lemma {:induction false} DecodedNoObjects(lines: seq<Line>)
    requires forall i :: 0 <= i < |lines| ==> !lines[i].Obj?
    ensures Decoded(lines) == []
  {
    if lines != [] {
      var init := lines[..|lines| - 1];
      assert forall i :: 0 <= i < |init| ==> init[i] == lines[i];
      DecodedNoObjects(init);
    }
  }

  /** An event is decoded exactly when a line held it. */
  lemma {:induction false} DecodedMembership(lines: seq<Line>, e: Event)
    ensures e in Decoded(lines) <==> Obj(e) in lines
  {
    if lines != [] {
      var init := lines[..|lines| - 1];
      assert lines == init + [lines[|lines| - 1]];
      DecodedMembership(init, e);
    }
  }
}
